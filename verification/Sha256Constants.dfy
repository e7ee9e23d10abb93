/**
 What the constants of SHA-256 are: the bits behind the point of roots of the first primes, as section 4.2.2 and section
 5.3.3 of FIPS 180-4 ask for.
 */
module Sha256Constants {
  import opened Arithmetic
  import opened Sha256

  // ---------- The first 64 primes ----------

  predicate IsPrime(n: nat) {
    n >= 2 && forall d :: 2 <= d < n ==> n % d != 0
  }

  const PRIMES: seq<seq<nat>> := [
    [2, 3, 5, 7, 11, 13, 17, 19],
    [23, 29, 31, 37, 41, 43, 47, 53],
    [59, 61, 67, 71, 73, 79, 83, 89],
    [97, 101, 103, 107, 109, 113, 127, 131],
    [137, 139, 149, 151, 157, 163, 167, 173],
    [179, 181, 191, 193, 197, 199, 211, 223],
    [227, 229, 233, 239, 241, 251, 257, 263],
    [269, 271, 277, 281, 283, 293, 307, 311]
  ]

  function PrimeAt(t: nat): nat
    requires t < 64
  {
    PRIMES[t / 8][t % 8]
  }

  /** No proper divisor among the primes up to 17. */
  predicate Passes(n: nat) {
    && (n % 2 != 0 || n == 2) && (n % 3 != 0 || n == 3) && (n % 5 != 0 || n == 5) && (n % 7 != 0 || n == 7)
    && (n % 11 != 0 || n == 11) && (n % 13 != 0 || n == 13) && (n % 17 != 0 || n == 17)
  }

  lemma DivisorOfDivisor(n: nat, e: nat, q: nat)
    requires e > 0 && q > 0 && n % e == 0 && e % q == 0
    ensures n % q == 0
  {
    var k, j := n / e, e / q;
    assert n == q * j * k == q * (j * k);
    QuotientIs(n, q, j * k);
  }

  lemma SmallDivisor(n: nat, e: nat)
    requires 2 <= e < 19 && n % e == 0
    ensures n % 2 == 0 || n % 3 == 0 || n % 5 == 0 || n % 7 == 0 || n % 11 == 0 || n % 13 == 0 || n % 17 == 0
  {
    if e % 2 == 0 {
      DivisorOfDivisor(n, e, 2);
    } else if e % 3 == 0 {
      DivisorOfDivisor(n, e, 3);
    }
  }

  /** Of two factors, one is at most the square root. */
  lemma Cofactor(n: nat, d: nat) returns (e: nat)
    requires 2 <= d < n < 361 && n % d == 0
    ensures 2 <= e < 19 && e < n && n % e == 0
  {
    e := d;
    if d >= 19 {
      e := n / d;
      assert n == d * e;
      if e >= 19 {
        MulLe(19, e, d);
      } else if e <= 1 {
        MulLe(e, 1, d);
      } else {
        QuotientIs(n, e, d);
      }
    }
  }

  lemma PrimePasses(n: nat)
    requires IsPrime(n)
    ensures Passes(n)
  {
  }

  lemma PassesIff(n: nat)
    requires 2 <= n < 361
    ensures Passes(n) <==> IsPrime(n)
  {
    if IsPrime(n) {
      PrimePasses(n);
    } else if Passes(n) {
      hide Passes;
      var d :| 2 <= d < n && n % d == 0;
      var e := Cofactor(n, d);
      SmallDivisor(n, e);
      PassingIsSmall(n);
      SmallPrime(n);
    }
  }

  lemma PassingIsSmall(n: nat)
    requires n >= 2 && Passes(n)
    requires n % 2 == 0 || n % 3 == 0 || n % 5 == 0 || n % 7 == 0 || n % 11 == 0 || n % 13 == 0 || n % 17 == 0
    ensures n <= 17
  {
  }

  /** A number up to 17 that passes has no divisor below it. */
  lemma SmallPrime(n: nat)
    requires 2 <= n <= 17 && Passes(n)
    ensures IsPrime(n)
  {
  }

  lemma Passing0(n: nat)
    requires 2 <= n < 11
    ensures Passes(n) <==> n == 2 || n == 3 || n == 5 || n == 7
  {
  }

  lemma Passing1(n: nat)
    requires 11 <= n < 20
    ensures Passes(n) <==> n == 11 || n == 13 || n == 17 || n == 19
  {
  }

  lemma PrimesRow0(n: nat)
    requires 2 <= n < 20
    ensures IsPrime(n) <==> n in PRIMES[0]
  {
    hide IsPrime, Passes;
    PassesIff(n);
    assert PRIMES[0] == [2, 3, 5, 7, 11, 13, 17, 19];
    if n < 11 {
      Passing0(n);
    } else {
      Passing1(n);
    }
  }

  lemma Passing2(n: nat)
    requires 20 <= n < 41
    ensures Passes(n) <==> n == 23 || n == 29 || n == 31 || n == 37
  {
  }

  lemma Passing3(n: nat)
    requires 41 <= n < 54
    ensures Passes(n) <==> n == 41 || n == 43 || n == 47 || n == 53
  {
  }

  lemma PrimesRow1(n: nat)
    requires 20 <= n < 54
    ensures IsPrime(n) <==> n in PRIMES[1]
  {
    hide IsPrime, Passes;
    PassesIff(n);
    assert PRIMES[1] == [23, 29, 31, 37, 41, 43, 47, 53];
    if n < 41 {
      Passing2(n);
    } else {
      Passing3(n);
    }
  }

  lemma Passing4(n: nat)
    requires 54 <= n < 73
    ensures Passes(n) <==> n == 59 || n == 61 || n == 67 || n == 71
  {
  }

  lemma Passing5(n: nat)
    requires 73 <= n < 90
    ensures Passes(n) <==> n == 73 || n == 79 || n == 83 || n == 89
  {
  }

  lemma PrimesRow2(n: nat)
    requires 54 <= n < 90
    ensures IsPrime(n) <==> n in PRIMES[2]
  {
    hide IsPrime, Passes;
    PassesIff(n);
    assert PRIMES[2] == [59, 61, 67, 71, 73, 79, 83, 89];
    if n < 73 {
      Passing4(n);
    } else {
      Passing5(n);
    }
  }

  lemma Passing6(n: nat)
    requires 90 <= n < 109
    ensures Passes(n) <==> n == 97 || n == 101 || n == 103 || n == 107
  {
  }

  lemma Passing7(n: nat)
    requires 109 <= n < 132
    ensures Passes(n) <==> n == 109 || n == 113 || n == 127 || n == 131
  {
  }

  lemma PrimesRow3(n: nat)
    requires 90 <= n < 132
    ensures IsPrime(n) <==> n in PRIMES[3]
  {
    hide IsPrime, Passes;
    PassesIff(n);
    assert PRIMES[3] == [97, 101, 103, 107, 109, 113, 127, 131];
    if n < 109 {
      Passing6(n);
    } else {
      Passing7(n);
    }
  }

  lemma Passing8(n: nat)
    requires 132 <= n < 157
    ensures Passes(n) <==> n == 137 || n == 139 || n == 149 || n == 151
  {
  }

  lemma Passing9(n: nat)
    requires 157 <= n < 174
    ensures Passes(n) <==> n == 157 || n == 163 || n == 167 || n == 173
  {
  }

  lemma PrimesRow4(n: nat)
    requires 132 <= n < 174
    ensures IsPrime(n) <==> n in PRIMES[4]
  {
    hide IsPrime, Passes;
    PassesIff(n);
    assert PRIMES[4] == [137, 139, 149, 151, 157, 163, 167, 173];
    if n < 157 {
      Passing8(n);
    } else {
      Passing9(n);
    }
  }

  lemma Passing10(n: nat)
    requires 174 <= n < 197
    ensures Passes(n) <==> n == 179 || n == 181 || n == 191 || n == 193
  {
  }

  lemma Passing11(n: nat)
    requires 197 <= n < 224
    ensures Passes(n) <==> n == 197 || n == 199 || n == 211 || n == 223
  {
  }

  lemma PrimesRow5(n: nat)
    requires 174 <= n < 224
    ensures IsPrime(n) <==> n in PRIMES[5]
  {
    hide IsPrime, Passes;
    PassesIff(n);
    assert PRIMES[5] == [179, 181, 191, 193, 197, 199, 211, 223];
    if n < 197 {
      Passing10(n);
    } else {
      Passing11(n);
    }
  }

  lemma Passing12(n: nat)
    requires 224 <= n < 241
    ensures Passes(n) <==> n == 227 || n == 229 || n == 233 || n == 239
  {
  }

  lemma Passing13(n: nat)
    requires 241 <= n < 264
    ensures Passes(n) <==> n == 241 || n == 251 || n == 257 || n == 263
  {
  }

  lemma PrimesRow6(n: nat)
    requires 224 <= n < 264
    ensures IsPrime(n) <==> n in PRIMES[6]
  {
    hide IsPrime, Passes;
    PassesIff(n);
    assert PRIMES[6] == [227, 229, 233, 239, 241, 251, 257, 263];
    if n < 241 {
      Passing12(n);
    } else {
      Passing13(n);
    }
  }

  lemma Passing14(n: nat)
    requires 264 <= n < 283
    ensures Passes(n) <==> n == 269 || n == 271 || n == 277 || n == 281
  {
  }

  lemma Passing15(n: nat)
    requires 283 <= n < 312
    ensures Passes(n) <==> n == 283 || n == 293 || n == 307 || n == 311
  {
  }

  lemma PrimesRow7(n: nat)
    requires 264 <= n < 312
    ensures IsPrime(n) <==> n in PRIMES[7]
  {
    hide IsPrime, Passes;
    PassesIff(n);
    assert PRIMES[7] == [269, 271, 277, 281, 283, 293, 307, 311];
    if n < 283 {
      Passing14(n);
    } else {
      Passing15(n);
    }
  }

  /** Row r of the table ascends and lies behind row r - 1. */
  predicate RowAscends(r: nat)
    requires r < 8
  {
    && (forall i, j :: 0 <= i < j < 8 ==> PRIMES[r][i] < PRIMES[r][j])
    && (r > 0 ==> PRIMES[r - 1][7] < PRIMES[r][0])
  }

  lemma TableIs()
    ensures PRIMES[0] == [2, 3, 5, 7, 11, 13, 17, 19] && PRIMES[1] == [23, 29, 31, 37, 41, 43, 47, 53]
    ensures PRIMES[2] == [59, 61, 67, 71, 73, 79, 83, 89] && PRIMES[3] == [97, 101, 103, 107, 109, 113, 127, 131]
    ensures PRIMES[4] == [137, 139, 149, 151, 157, 163, 167, 173]
    ensures PRIMES[5] == [179, 181, 191, 193, 197, 199, 211, 223]
    ensures PRIMES[6] == [227, 229, 233, 239, 241, 251, 257, 263]
    ensures PRIMES[7] == [269, 271, 277, 281, 283, 293, 307, 311]
  {
  }

  lemma LastPrime()
    ensures PRIMES[7][7] == 311
  {
    TableIs();
  }

  lemma RowsAscend(r: nat)
    requires r < 8
    ensures RowAscends(r)
  {
    TableIs();
  }

  lemma {:induction false} PrimesAscend(t: nat, u: nat)
    requires t < u < 64
    ensures PrimeAt(t) < PrimeAt(u)
  {
    hide PRIMES;
    RowsAscend(u / 8);
    if t + 1 < u {
      PrimesAscend(t, u - 1);
      RowsAscend((u - 1) / 8);
    }
  }

  /** Row r holds the primes up to its last entry, from the last entry of row r - 1 on. */
  lemma RowHolds(r: nat, n: nat)
    requires r < 8 && n <= PRIMES[r][7] && (r > 0 ==> n > PRIMES[r - 1][7])
    ensures IsPrime(n) <==> n in PRIMES[r]
  {
    hide IsPrime;
    TableIs();
    if n < 2 {
      TooSmall(n);
    } else {
      match r
      case 0 => PrimesRow0(n);
      case 1 => PrimesRow1(n);
      case 2 => PrimesRow2(n);
      case 3 => PrimesRow3(n);
      case 4 => PrimesRow4(n);
      case 5 => PrimesRow5(n);
      case 6 => PrimesRow6(n);
      case 7 => PrimesRow7(n);
    }
  }

  lemma TooSmall(n: nat)
    requires n < 2
    ensures !IsPrime(n)
  {
  }

  lemma {:induction false} RowFor(n: nat, r: nat) returns (q: nat)
    requires r < 8 && n <= PRIMES[r][7]
    ensures q <= r && n <= PRIMES[q][7] && (q > 0 ==> n > PRIMES[q - 1][7])
  {
    q := r;
    if r > 0 && n <= PRIMES[r - 1][7] {
      q := RowFor(n, r - 1);
    }
  }

  lemma EntryAt(r: nat, j: nat)
    requires r < 8 && j < 8
    ensures PrimeAt(8 * r + j) == PRIMES[r][j]
  {
  }

  lemma PrimeIsEntry(n: nat) returns (t: nat)
    requires n < 312 && IsPrime(n)
    ensures t < 64 && PrimeAt(t) == n
  {
    hide IsPrime, PrimeAt;
    LastPrime();
    var r := RowFor(n, 7);
    RowHolds(r, n);
    var j :| 0 <= j < 8 && PRIMES[r][j] == n;
    EntryAt(r, j);
    t := 8 * r + j;
  }

  /** The table holds exactly the primes below 312, so that entry t is the prime with t primes before it. */
  lemma PrimesAre(n: nat)
    requires n < 312
    ensures IsPrime(n) <==> exists t :: 0 <= t < 64 && PrimeAt(t) == n
  {
    hide IsPrime, PrimeAt;
    if t :| 0 <= t < 64 && PrimeAt(t) == n {
      EntryIsPrime(t);
    } else if IsPrime(n) {
      var t := PrimeIsEntry(n);
    }
  }

  lemma EntryIsPrime(t: nat)
    requires t < 64
    ensures IsPrime(PrimeAt(t))
  {
    hide IsPrime;
    var r := t / 8;
    RowsAscend(r);
    TableIs();
    RowHolds(r, PRIMES[r][t % 8]);
  }

  // ---------- Roots ----------

  /** m is the cube root of p * 2^96, rounded down. */
  predicate CubeRoot(m: nat, p: nat) {
    m * m * m <= p * 0x1_0000_0000 * 0x1_0000_0000 * 0x1_0000_0000 < (m + 1) * (m + 1) * (m + 1)
  }

  /** k is the first 32 bits behind the point of the cube root of p. */
  ghost predicate CubeRootBits(k: nat, p: nat) {
    k < 0x1_0000_0000 && exists c: nat :: CubeRoot(c * 0x1_0000_0000 + k, p)
  }

  lemma CubeRootIs(k: bv32, n: nat, c: nat, p: nat)
    requires k as nat == n < 0x1_0000_0000 && CubeRoot(c * 0x1_0000_0000 + n, p)
    ensures CubeRootBits(k as nat, p)
  {
  }

  ghost predicate RowIsRoots(row: seq<bv32>, primes: seq<nat>) {
    |row| == 8 == |primes| && forall j :: 0 <= j < 8 ==> CubeRootBits(row[j] as nat, primes[j])
  }

  lemma RootsRow0(row: seq<bv32>, primes: seq<nat>)
    requires row == K[0] && primes == PRIMES[0]
    ensures RowIsRoots(row, primes)
  {
    hide CubeRoot, CubeRootBits;
    assert primes == [2, 3, 5, 7, 11, 13, 17, 19];
    assert row == [0x428a2f98, 0x71374491, 0xb5c0fbcf, 0xe9b5dba5, 0x3956c25b, 0x59f111f1, 0x923f82a4, 0xab1c5ed5];
    CubeRootIs(row[0], 0x428a2f98, 1, 2);
    CubeRootIs(row[1], 0x71374491, 1, 3);
    CubeRootIs(row[2], 0xb5c0fbcf, 1, 5);
    CubeRootIs(row[3], 0xe9b5dba5, 1, 7);
    CubeRootIs(row[4], 0x3956c25b, 2, 11);
    CubeRootIs(row[5], 0x59f111f1, 2, 13);
    CubeRootIs(row[6], 0x923f82a4, 2, 17);
    CubeRootIs(row[7], 0xab1c5ed5, 2, 19);
  }

  lemma RootsRow1(row: seq<bv32>, primes: seq<nat>)
    requires row == K[1] && primes == PRIMES[1]
    ensures RowIsRoots(row, primes)
  {
    hide CubeRoot, CubeRootBits;
    assert primes == [23, 29, 31, 37, 41, 43, 47, 53];
    assert row == [0xd807aa98, 0x12835b01, 0x243185be, 0x550c7dc3, 0x72be5d74, 0x80deb1fe, 0x9bdc06a7, 0xc19bf174];
    CubeRootIs(row[0], 0xd807aa98, 2, 23);
    CubeRootIs(row[1], 0x12835b01, 3, 29);
    CubeRootIs(row[2], 0x243185be, 3, 31);
    CubeRootIs(row[3], 0x550c7dc3, 3, 37);
    CubeRootIs(row[4], 0x72be5d74, 3, 41);
    CubeRootIs(row[5], 0x80deb1fe, 3, 43);
    CubeRootIs(row[6], 0x9bdc06a7, 3, 47);
    CubeRootIs(row[7], 0xc19bf174, 3, 53);
  }

  lemma RootsRow2(row: seq<bv32>, primes: seq<nat>)
    requires row == K[2] && primes == PRIMES[2]
    ensures RowIsRoots(row, primes)
  {
    hide CubeRoot, CubeRootBits;
    assert primes == [59, 61, 67, 71, 73, 79, 83, 89];
    assert row == [0xe49b69c1, 0xefbe4786, 0x0fc19dc6, 0x240ca1cc, 0x2de92c6f, 0x4a7484aa, 0x5cb0a9dc, 0x76f988da];
    CubeRootIs(row[0], 0xe49b69c1, 3, 59);
    CubeRootIs(row[1], 0xefbe4786, 3, 61);
    CubeRootIs(row[2], 0x0fc19dc6, 4, 67);
    CubeRootIs(row[3], 0x240ca1cc, 4, 71);
    CubeRootIs(row[4], 0x2de92c6f, 4, 73);
    CubeRootIs(row[5], 0x4a7484aa, 4, 79);
    CubeRootIs(row[6], 0x5cb0a9dc, 4, 83);
    CubeRootIs(row[7], 0x76f988da, 4, 89);
  }

  lemma RootsRow3(row: seq<bv32>, primes: seq<nat>)
    requires row == K[3] && primes == PRIMES[3]
    ensures RowIsRoots(row, primes)
  {
    hide CubeRoot, CubeRootBits;
    assert primes == [97, 101, 103, 107, 109, 113, 127, 131];
    assert row == [0x983e5152, 0xa831c66d, 0xb00327c8, 0xbf597fc7, 0xc6e00bf3, 0xd5a79147, 0x06ca6351, 0x14292967];
    CubeRootIs(row[0], 0x983e5152, 4, 97);
    CubeRootIs(row[1], 0xa831c66d, 4, 101);
    CubeRootIs(row[2], 0xb00327c8, 4, 103);
    CubeRootIs(row[3], 0xbf597fc7, 4, 107);
    CubeRootIs(row[4], 0xc6e00bf3, 4, 109);
    CubeRootIs(row[5], 0xd5a79147, 4, 113);
    CubeRootIs(row[6], 0x06ca6351, 5, 127);
    CubeRootIs(row[7], 0x14292967, 5, 131);
  }

  lemma RootsRow4(row: seq<bv32>, primes: seq<nat>)
    requires row == K[4] && primes == PRIMES[4]
    ensures RowIsRoots(row, primes)
  {
    hide CubeRoot, CubeRootBits;
    assert primes == [137, 139, 149, 151, 157, 163, 167, 173];
    assert row == [0x27b70a85, 0x2e1b2138, 0x4d2c6dfc, 0x53380d13, 0x650a7354, 0x766a0abb, 0x81c2c92e, 0x92722c85];
    CubeRootIs(row[0], 0x27b70a85, 5, 137);
    CubeRootIs(row[1], 0x2e1b2138, 5, 139);
    CubeRootIs(row[2], 0x4d2c6dfc, 5, 149);
    CubeRootIs(row[3], 0x53380d13, 5, 151);
    CubeRootIs(row[4], 0x650a7354, 5, 157);
    CubeRootIs(row[5], 0x766a0abb, 5, 163);
    CubeRootIs(row[6], 0x81c2c92e, 5, 167);
    CubeRootIs(row[7], 0x92722c85, 5, 173);
  }

  lemma RootsRow5(row: seq<bv32>, primes: seq<nat>)
    requires row == K[5] && primes == PRIMES[5]
    ensures RowIsRoots(row, primes)
  {
    hide CubeRoot, CubeRootBits;
    assert primes == [179, 181, 191, 193, 197, 199, 211, 223];
    assert row == [0xa2bfe8a1, 0xa81a664b, 0xc24b8b70, 0xc76c51a3, 0xd192e819, 0xd6990624, 0xf40e3585, 0x106aa070];
    CubeRootIs(row[0], 0xa2bfe8a1, 5, 179);
    CubeRootIs(row[1], 0xa81a664b, 5, 181);
    CubeRootIs(row[2], 0xc24b8b70, 5, 191);
    CubeRootIs(row[3], 0xc76c51a3, 5, 193);
    CubeRootIs(row[4], 0xd192e819, 5, 197);
    CubeRootIs(row[5], 0xd6990624, 5, 199);
    CubeRootIs(row[6], 0xf40e3585, 5, 211);
    CubeRootIs(row[7], 0x106aa070, 6, 223);
  }

  lemma RootsRow6(row: seq<bv32>, primes: seq<nat>)
    requires row == K[6] && primes == PRIMES[6]
    ensures RowIsRoots(row, primes)
  {
    hide CubeRoot, CubeRootBits;
    assert primes == [227, 229, 233, 239, 241, 251, 257, 263];
    assert row == [0x19a4c116, 0x1e376c08, 0x2748774c, 0x34b0bcb5, 0x391c0cb3, 0x4ed8aa4a, 0x5b9cca4f, 0x682e6ff3];
    CubeRootIs(row[0], 0x19a4c116, 6, 227);
    CubeRootIs(row[1], 0x1e376c08, 6, 229);
    CubeRootIs(row[2], 0x2748774c, 6, 233);
    CubeRootIs(row[3], 0x34b0bcb5, 6, 239);
    CubeRootIs(row[4], 0x391c0cb3, 6, 241);
    CubeRootIs(row[5], 0x4ed8aa4a, 6, 251);
    CubeRootIs(row[6], 0x5b9cca4f, 6, 257);
    CubeRootIs(row[7], 0x682e6ff3, 6, 263);
  }

  lemma RootsRow7(row: seq<bv32>, primes: seq<nat>)
    requires row == K[7] && primes == PRIMES[7]
    ensures RowIsRoots(row, primes)
  {
    hide CubeRoot, CubeRootBits;
    assert primes == [269, 271, 277, 281, 283, 293, 307, 311];
    assert row == [0x748f82ee, 0x78a5636f, 0x84c87814, 0x8cc70208, 0x90befffa, 0xa4506ceb, 0xbef9a3f7, 0xc67178f2];
    CubeRootIs(row[0], 0x748f82ee, 6, 269);
    CubeRootIs(row[1], 0x78a5636f, 6, 271);
    CubeRootIs(row[2], 0x84c87814, 6, 277);
    CubeRootIs(row[3], 0x8cc70208, 6, 281);
    CubeRootIs(row[4], 0x90befffa, 6, 283);
    CubeRootIs(row[5], 0xa4506ceb, 6, 293);
    CubeRootIs(row[6], 0xbef9a3f7, 6, 307);
    CubeRootIs(row[7], 0xc67178f2, 6, 311);
  }

  /** Round constant t is made of the first 32 bits behind the point of the cube root of the prime with t primes before it. */
  lemma RoundConstantsAre(t: nat)
    requires t < 64
    ensures CubeRootBits(RoundConstant(t) as nat, PrimeAt(t))
  {
    hide CubeRootBits;
    var r, j := t / 8, t % 8;
    match r
    case 0 => RootsRow0(K[r], PRIMES[r]);
    case 1 => RootsRow1(K[r], PRIMES[r]);
    case 2 => RootsRow2(K[r], PRIMES[r]);
    case 3 => RootsRow3(K[r], PRIMES[r]);
    case 4 => RootsRow4(K[r], PRIMES[r]);
    case 5 => RootsRow5(K[r], PRIMES[r]);
    case 6 => RootsRow6(K[r], PRIMES[r]);
    case 7 => RootsRow7(K[r], PRIMES[r]);
    assert CubeRootBits(K[r][j] as nat, PRIMES[r][j]);
  }

  /** m is the square root of p * 2^64, rounded down. */
  predicate SquareRoot(m: nat, p: nat) {
    m * m <= p * 0x1_0000_0000 * 0x1_0000_0000 < (m + 1) * (m + 1)
  }

  /** k is the first 32 bits behind the point of the square root of p. */
  ghost predicate SquareRootBits(k: nat, p: nat) {
    k < 0x1_0000_0000 && exists c: nat :: SquareRoot(c * 0x1_0000_0000 + k, p)
  }

  lemma SquareRootIs(k: bv32, n: nat, c: nat, p: nat)
    requires k as nat == n < 0x1_0000_0000 && SquareRoot(c * 0x1_0000_0000 + n, p)
    ensures SquareRootBits(k as nat, p)
  {
  }

  /** The first hash value, likewise, from square roots. */
  lemma InitialWordsAre(i: nat)
    requires i < 8
    ensures SquareRootBits(INIT[i] as nat, PrimeAt(i))
  {
    hide SquareRoot, SquareRootBits;
    var row, primes := INIT, PRIMES[0];
    assert primes == [2, 3, 5, 7, 11, 13, 17, 19];
    assert row == [0x6a09e667, 0xbb67ae85, 0x3c6ef372, 0xa54ff53a, 0x510e527f, 0x9b05688c, 0x1f83d9ab, 0x5be0cd19];
    SquareRootIs(row[0], 0x6a09e667, 1, 2);
    SquareRootIs(row[1], 0xbb67ae85, 1, 3);
    SquareRootIs(row[2], 0x3c6ef372, 2, 5);
    SquareRootIs(row[3], 0xa54ff53a, 2, 7);
    SquareRootIs(row[4], 0x510e527f, 3, 11);
    SquareRootIs(row[5], 0x9b05688c, 3, 13);
    SquareRootIs(row[6], 0x1f83d9ab, 4, 17);
    SquareRootIs(row[7], 0x5be0cd19, 4, 19);
    EntryAt(0, i);
    assert forall j :: 0 <= j < 8 ==> SquareRootBits(row[j] as nat, primes[j]);
  }
}
