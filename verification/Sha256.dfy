/** SHA-256 as in FIPS 180-4, and the loops of `src/Core/hash.cpp` that compute it. */
module Sha256 {
  import opened Bytes
  import opened Words
  import RecordLayout

  type Words8 = s: seq<bv32> | |s| == 8 witness [0, 0, 0, 0, 0, 0, 0, 0]
  type Block = s: seq<byte> | |s| == 64 witness seq(64, i => 0)

  /** The 64 round constants, eight to a row. */
  const K: seq<seq<bv32>> := [
    [0x428a2f98, 0x71374491, 0xb5c0fbcf, 0xe9b5dba5, 0x3956c25b, 0x59f111f1, 0x923f82a4, 0xab1c5ed5],
    [0xd807aa98, 0x12835b01, 0x243185be, 0x550c7dc3, 0x72be5d74, 0x80deb1fe, 0x9bdc06a7, 0xc19bf174],
    [0xe49b69c1, 0xefbe4786, 0x0fc19dc6, 0x240ca1cc, 0x2de92c6f, 0x4a7484aa, 0x5cb0a9dc, 0x76f988da],
    [0x983e5152, 0xa831c66d, 0xb00327c8, 0xbf597fc7, 0xc6e00bf3, 0xd5a79147, 0x06ca6351, 0x14292967],
    [0x27b70a85, 0x2e1b2138, 0x4d2c6dfc, 0x53380d13, 0x650a7354, 0x766a0abb, 0x81c2c92e, 0x92722c85],
    [0xa2bfe8a1, 0xa81a664b, 0xc24b8b70, 0xc76c51a3, 0xd192e819, 0xd6990624, 0xf40e3585, 0x106aa070],
    [0x19a4c116, 0x1e376c08, 0x2748774c, 0x34b0bcb5, 0x391c0cb3, 0x4ed8aa4a, 0x5b9cca4f, 0x682e6ff3],
    [0x748f82ee, 0x78a5636f, 0x84c87814, 0x8cc70208, 0x90befffa, 0xa4506ceb, 0xbef9a3f7, 0xc67178f2]]

  const INIT: Words8 :=
    [0x6a09e667, 0xbb67ae85, 0x3c6ef372, 0xa54ff53a, 0x510e527f, 0x9b05688c, 0x1f83d9ab, 0x5be0cd19]

  // ---------- Section 6.2.2 ----------

  function RoundConstant(t: nat): bv32
    requires t < 64
  {
    K[t / 8][t % 8]
  }

  function Widened(b: byte): bv32 {
    b as bv32
  }

  /** The big-endian word t of a block. */
  function Word(b: Block, t: nat): bv32
    requires t < 16
  {
    FourBytes(Widened(b[4 * t]), Widened(b[4 * t + 1]), Widened(b[4 * t + 2]), Widened(b[4 * t + 3]))
  }

  /** Step 1: the message schedule. */
  function Schedule(b: Block, t: nat): bv32
    requires t < 64
  {
    if t < 16 then Word(b, t)
    else Sum4(SmallSigma1(Schedule(b, t - 2)), Schedule(b, t - 7), SmallSigma0(Schedule(b, t - 15)), Schedule(b, t - 16))
  }

  /** Step 3: one round on the working variables a to h. */
  function Round(v: Words8, k: bv32, w: bv32): Words8 {
    var t1 := Sum5(v[7], BigSigma1(v[4]), Ch(v[4], v[5], v[6]), k, w);
    var t2 := Sum2(BigSigma0(v[0]), Maj(v[0], v[1], v[2]));
    [Sum2(t1, t2), v[0], v[1], v[2], Sum2(v[3], t1), v[4], v[5], v[6]]
  }

  function Rounds(v: Words8, b: Block, t: nat): Words8
    requires t <= 64
  {
    if t == 0 then v else Round(Rounds(v, b, t - 1), RoundConstant(t - 1), Schedule(b, t - 1))
  }

  /** Steps 2 to 4: the hash value after one more block. */
  function Compress(h: Words8, b: Block): Words8 {
    var v := Rounds(h, b, 64);
    seq(8, i requires 0 <= i < 8 => Sum2(h[i], v[i]))
  }

  // ---------- Sections 5.1.1 and 5.2.1: padding and blocks ----------

  /** The number of zero bytes: the smallest that fills up the last block. */
  function Zeros(n: nat): (k: nat)
    ensures k < 64 && (n + 1 + k + 8) % 64 == 0
  {
    if n % 64 < 56 then 55 - n % 64 else 119 - n % 64
  }

  function Padded(m: seq<byte>): (s: seq<byte>)
    ensures |s| % 64 == 0
  {
    m + [0x80] + seq(Zeros(|m|), i => 0) + BigEndian(8 * |m|, 8)
  }

  function BlockAt(s: seq<byte>, i: nat): Block
    requires 64 * i + 64 <= |s|
  {
    s[64 * i..64 * i + 64]
  }

  /** The hash value after the first n blocks. */
  function Hash(s: seq<byte>, n: nat): Words8
    requires 64 * n <= |s|
  {
    if n == 0 then INIT else Compress(Hash(s, n - 1), BlockAt(s, n - 1))
  }

  function WordBytes(w: bv32): seq<byte> {
    [Shr(w, 24) as nat, (Shr(w, 16) & 0xFF) as nat, (Shr(w, 8) & 0xFF) as nat, (w & 0xFF) as nat]
  }

  function DigestBytes(h: Words8, n: nat): seq<byte>
    requires n <= 8
  {
    if n == 0 then [] else DigestBytes(h, n - 1) + WordBytes(h[n - 1])
  }

  /** Bytes 4 * i to 4 * i + 3 of the digest are word i of the hash value, highest byte first. */
  lemma {:induction false} DigestBytesAt(h: Words8, n: nat, i: nat)
    requires i < n <= 8
    ensures |DigestBytes(h, n)| == 4 * n && DigestBytes(h, n)[4 * i..4 * i + 4] == WordBytes(h[i])
  {
    hide WordBytes;
    DigestNext(h, n - 1);
    if i < n - 1 {
      DigestBytesAt(h, n - 1, i);
    } else if n > 1 {
      DigestBytesAt(h, n - 1, 0);
    }
  }

  lemma DigestNext(h: Words8, n: nat)
    requires n < 8
    ensures DigestBytes(h, 0) == [] && DigestBytes(h, n + 1) == DigestBytes(h, n) + WordBytes(h[n])
    ensures |WordBytes(h[n])| == 4
  {
  }

  function Digest(m: seq<byte>): seq<byte> {
    DigestBytes(Hash(Padded(m), |Padded(m)| / 64), 8)
  }

  // ---------- The padded message in blocks ----------

  /** Full blocks of the message are blocks of the padded message. */
  lemma FullBlock(m: seq<byte>, k: nat)
    requires 64 * k + 64 <= |m|
    ensures 64 * k + 64 <= |Padded(m)| && BlockAt(Padded(m), k) == m[64 * k..64 * k + 64]
  {
  }

  /** With up to 55 bytes left, one more block holds them, the mark and the length. */
  lemma ShortTail(m: seq<byte>, q: nat, r: nat)
    requires |m| == 64 * q + r && r < 56
    ensures |Padded(m)| == 64 * q + 64
    ensures BlockAt(Padded(m), q) == m[64 * q..] + [0x80] + seq(55 - r, i => 0) + BigEndian(8 * |m|, 8)
  {
    var p := Padded(m);
    var want := m[64 * q..] + [0x80] + seq(55 - r, i => 0) + BigEndian(8 * |m|, 8);
    assert Zeros(|m|) == 55 - r;
    assert p == m[..64 * q] + want;
  }

  /** With 56 bytes or more left, the length goes to a second block. */
  lemma LongTail(m: seq<byte>, q: nat, r: nat)
    requires |m| == 64 * q + r && 56 <= r < 64
    ensures |Padded(m)| == 64 * q + 128
    ensures BlockAt(Padded(m), q) == m[64 * q..] + [0x80] + seq(63 - r, i => 0)
    ensures BlockAt(Padded(m), q + 1) == seq(56, i => 0) + BigEndian(8 * |m|, 8)
  {
    var p := Padded(m);
    var first: seq<byte> := m[64 * q..] + [0x80] + seq(63 - r, i => 0);
    var last: seq<byte> := seq(56, i => 0) + BigEndian(8 * |m|, 8);
    assert Zeros(|m|) == 119 - r;
    assert p == m[..64 * q] + first + last by {
      assert seq(119 - r, i => 0 as byte) == seq(63 - r, i => 0 as byte) + seq(56, i => 0 as byte);
    }
    assert p[64 * q..64 * q + 64] == first && p[64 * q + 64..64 * q + 128] == last;
  }

  // ---------- The code ----------

  lemma SumReorder(a: bv32, b: bv32, c: bv32, d: bv32)
    ensures Sum4(a, b, c, d) == Sum4(d, c, b, a)
  {
  }

  lemma ScheduleNext(b: Block, t: nat)
    requires 16 <= t < 64
    ensures Schedule(b, t) ==
            Sum4(Schedule(b, t - 16), SmallSigma0(Schedule(b, t - 15)), Schedule(b, t - 7), SmallSigma1(Schedule(b, t - 2)))
  {
    hide SmallSigma0, SmallSigma1, Sum4, Word;
    SumReorder(Schedule(b, t - 16), SmallSigma0(Schedule(b, t - 15)), Schedule(b, t - 7), SmallSigma1(Schedule(b, t - 2)));
  }

  lemma ScheduleStart(b: Block, t: nat)
    requires t < 16
    ensures Schedule(b, t) == Word(b, t)
  {
    hide Word;
  }

  method BuildSchedule(chunk: Block) returns (w: array<bv32>)
    ensures fresh(w) && w.Length == 64 && forall t :: 0 <= t < 64 ==> w[t] == Schedule(chunk, t)
  {
    hide Word, SmallSigma0, SmallSigma1, Schedule, Sum4;
    w := new bv32[64](i => 0);
    for t := 0 to 16
      invariant forall j :: 0 <= j < t ==> w[j] == Schedule(chunk, j)
    {
      ScheduleStart(chunk, t);
      w[t] := Word(chunk, t);
    }
    for t := 16 to 64
      invariant forall j :: 0 <= j < t ==> w[j] == Schedule(chunk, j)
    {
      ScheduleNext(chunk, t);
      var s0, s1 := SmallSigma0(w[t - 15]), SmallSigma1(w[t - 2]);
      w[t] := Sum4(w[t - 16], s0, w[t - 7], s1);
    }
  }

  lemma RoundsNext(h: Words8, b: Block, t: nat)
    requires t < 64
    ensures Rounds(h, b, t + 1) == Round(Rounds(h, b, t), RoundConstant(t), Schedule(b, t))
  {
    hide Round, Schedule, RoundConstant;
  }

  lemma NoRounds(h: Words8, b: Block)
    ensures Rounds(h, b, 0) == h
  {
  }

  /** The round loop of `process_chunk`: eight variables that move on by one place. */
  method RunRounds(start: Words8, w: array<bv32>, ghost chunk: Block) returns (v: Words8)
    requires w.Length == 64 && forall j :: 0 <= j < 64 ==> w[j] == Schedule(chunk, j)
    ensures v == Rounds(start, chunk, 64)
  {
    hide Ch, Maj, BigSigma0, BigSigma1, Schedule, Rounds, RoundConstant, Sum2, Sum5;
    NoRounds(start, chunk);
    var a, b, c, d, e, f, g, hh := start[0], start[1], start[2], start[3], start[4], start[5], start[6], start[7];
    assert [a, b, c, d, e, f, g, hh] == start;
    for t := 0 to 64
      invariant [a, b, c, d, e, f, g, hh] == Rounds(start, chunk, t)
    {
      RoundsNext(start, chunk, t);
      var temp1 := Sum5(hh, BigSigma1(e), Ch(e, f, g), RoundConstant(t), w[t]);
      var temp2 := Sum2(BigSigma0(a), Maj(a, b, c));
      hh, g, f, e, d, c, b, a := g, f, e, Sum2(d, temp1), c, b, a, Sum2(temp1, temp2);
    }
    v := [a, b, c, d, e, f, g, hh];
  }

  /** `process_chunk` */
  method ProcessChunk(h: array<bv32>, chunk: Block)
    requires h.Length == 8
    modifies h
    ensures h[..] == Compress(old(h[..]), chunk)
  {
    hide Rounds, Schedule, Sum2;
    var w := BuildSchedule(chunk);
    var v := RunRounds(h[..], w, chunk);
    for i := 0 to 8
      invariant forall j :: 0 <= j < 8 ==> h[j] == if j < i then Sum2(old(h[j]), v[j]) else old(h[j])
    {
      h[i] := Sum2(h[i], v[i]);
    }
    assert h[..] == Compress(old(h[..]), chunk);
  }

  /** `sha256_digest` */
  method Sha256Digest(m: seq<byte>) returns (digest: seq<byte>)
    requires 8 * |m| < TWO_64
    ensures digest == Digest(m)
  {
    hide Compress, Padded, BlockAt;
    var h := new bv32[8](i requires 0 <= i < 8 => INIT[i]);
    assert h[..] == INIT;
    var offset := 0;
    ghost var q := 0;
    while offset + 64 <= |m|
      invariant offset == 64 * q <= |m| && 64 * q <= |Padded(m)|
      invariant h[..] == Hash(Padded(m), q)
      decreases |m| - offset
    {
      FullBlock(m, q);
      ProcessChunk(h, m[offset..offset + 64]);
      offset, q := offset + 64, q + 1;
    }
    FinishHash(h, m, offset, q);
    digest := [];
    for i := 0 to 8
      invariant digest == DigestBytes(h[..], i)
    {
      digest := digest + WordBytes(h[i]);
    }
  }

  lemma HashNext(s: seq<byte>, n: nat)
    requires 64 * n + 64 <= |s|
    ensures Hash(s, n + 1) == Compress(Hash(s, n), BlockAt(s, n))
  {
    hide Compress, BlockAt;
  }

  /** The last one or two blocks, built in one buffer. */
  method FinishHash(h: array<bv32>, m: seq<byte>, offset: nat, ghost q: nat)
    requires h.Length == 8 && offset == 64 * q <= |m| < 64 * q + 64 && 8 * |m| < TWO_64
    requires 64 * q <= |Padded(m)| && h[..] == Hash(Padded(m), q)
    modifies h
    ensures h[..] == Hash(Padded(m), |Padded(m)| / 64)
  {
    hide Compress, Padded, BlockAt, BigEndian, Hash;
    var r := |m| - offset;
    var block := new byte[64](i => 0);
    forall i | 0 <= i < r {
      block[i] := m[offset + i];
    }
    block[r] := 0x80;
    assert block[..] == m[offset..] + [0x80] + seq(63 - r, i => 0);
    if r >= 56 {
      LongTail(m, q, r);
      HashNext(Padded(m), q);
      HashNext(Padded(m), q + 1);
      assert block[..] == BlockAt(Padded(m), q) && h[..] == Hash(Padded(m), q);
      ProcessChunk(h, block[..]);
      assert h[..] == Hash(Padded(m), q + 1);
      forall i | 0 <= i < 64 {
        block[i] := 0;
      }
      assert block[..] == seq(64, i => 0);
      RecordLayout.FillInteger(block, 56, 8 * |m|);
      assert block[..] == seq(56, i => 0) + BigEndian(8 * |m|, 8);
      assert block[..] == BlockAt(Padded(m), q + 1) && |Padded(m)| / 64 == q + 2 && h[..] == Hash(Padded(m), q + 1);
    } else {
      ShortTail(m, q, r);
      HashNext(Padded(m), q);
      RecordLayout.FillInteger(block, 56, 8 * |m|);
      assert block[..] == m[offset..] + [0x80] + seq(55 - r, i => 0) + BigEndian(8 * |m|, 8);
      assert block[..] == BlockAt(Padded(m), q) && |Padded(m)| / 64 == q + 1 && h[..] == Hash(Padded(m), q);
    }
    ProcessChunk(h, block[..]);
  }
}
