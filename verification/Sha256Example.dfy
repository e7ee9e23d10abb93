/**
 The digest of the three bytes `abc`, round by round: the example of one block that is published with FIPS 180-4.
 */
module Sha256Example {
  import opened Bytes
  import opened Sha256
  import opened Words

  /** The one block: the message, the mark, zeros and the length of 24 bits. */
  predicate IsAbc(b: Block) {
    && b[0] == 0x61 && b[1] == 0x62 && b[2] == 0x63 && b[3] == 0x80
    && (forall i :: 4 <= i < 63 ==> b[i] == 0) && b[63] == 24
  }

  // ---------- The message schedule ----------

  /** A later word of the schedule. */
  function NextWord(w2: bv32, w7: bv32, w15: bv32, w16: bv32): bv32 {
    Sum4(SmallSigma1(w2), w7, SmallSigma0(w15), w16)
  }

  lemma Words16()
    ensures NextWord(0x00000000, 0x00000000, 0x00000000, 0x61626380) == 0x61626380
    ensures NextWord(0x00000018, 0x00000000, 0x00000000, 0x00000000) == 0x000f0000
    ensures NextWord(0x61626380, 0x00000000, 0x00000000, 0x00000000) == 0x7da86405
    ensures NextWord(0x000f0000, 0x00000000, 0x00000000, 0x00000000) == 0x600003c6
    ensures NextWord(0x7da86405, 0x00000000, 0x00000000, 0x00000000) == 0x3e9d7b78
    ensures NextWord(0x600003c6, 0x00000000, 0x00000000, 0x00000000) == 0x0183fc00
    ensures NextWord(0x3e9d7b78, 0x00000018, 0x00000000, 0x00000000) == 0x12dcbfdb
    ensures NextWord(0x0183fc00, 0x61626380, 0x00000000, 0x00000000) == 0xe2e2c38e
  {
  }

  lemma Words24()
    ensures NextWord(0x12dcbfdb, 0x000f0000, 0x00000000, 0x00000000) == 0xc8215c1a
    ensures NextWord(0xe2e2c38e, 0x7da86405, 0x00000000, 0x00000000) == 0xb73679a2
    ensures NextWord(0xc8215c1a, 0x600003c6, 0x00000000, 0x00000000) == 0xe5bc3909
    ensures NextWord(0xb73679a2, 0x3e9d7b78, 0x00000000, 0x00000000) == 0x32663c5b
    ensures NextWord(0xe5bc3909, 0x0183fc00, 0x00000000, 0x00000000) == 0x9d209d67
    ensures NextWord(0x32663c5b, 0x12dcbfdb, 0x00000000, 0x00000000) == 0xec8726cb
    ensures NextWord(0x9d209d67, 0xe2e2c38e, 0x00000018, 0x00000000) == 0x702138a4
    ensures NextWord(0xec8726cb, 0xc8215c1a, 0x61626380, 0x00000018) == 0xd3b7973b
  {
  }

  lemma Words32()
    ensures NextWord(0x702138a4, 0xb73679a2, 0x000f0000, 0x61626380) == 0x93f5997f
    ensures NextWord(0xd3b7973b, 0xe5bc3909, 0x7da86405, 0x000f0000) == 0x3b68ba73
    ensures NextWord(0x93f5997f, 0x32663c5b, 0x600003c6, 0x7da86405) == 0xaff4ffc1
    ensures NextWord(0x3b68ba73, 0x9d209d67, 0x3e9d7b78, 0x600003c6) == 0xf10a5c62
    ensures NextWord(0xaff4ffc1, 0xec8726cb, 0x0183fc00, 0x3e9d7b78) == 0x0a8b3996
    ensures NextWord(0xf10a5c62, 0x702138a4, 0x12dcbfdb, 0x0183fc00) == 0x72af830a
    ensures NextWord(0x0a8b3996, 0xd3b7973b, 0xe2e2c38e, 0x12dcbfdb) == 0x9409e33e
    ensures NextWord(0x72af830a, 0x93f5997f, 0xc8215c1a, 0xe2e2c38e) == 0x24641522
  {
  }

  lemma Words40()
    ensures NextWord(0x9409e33e, 0x3b68ba73, 0xb73679a2, 0xc8215c1a) == 0x9f47bf94
    ensures NextWord(0x24641522, 0xaff4ffc1, 0xe5bc3909, 0xb73679a2) == 0xf0a64f5a
    ensures NextWord(0x9f47bf94, 0xf10a5c62, 0x32663c5b, 0xe5bc3909) == 0x3e246a79
    ensures NextWord(0xf0a64f5a, 0x0a8b3996, 0x9d209d67, 0x32663c5b) == 0x27333ba3
    ensures NextWord(0x3e246a79, 0x72af830a, 0xec8726cb, 0x9d209d67) == 0x0c4763f2
    ensures NextWord(0x27333ba3, 0x9409e33e, 0x702138a4, 0xec8726cb) == 0x840abf27
    ensures NextWord(0x0c4763f2, 0x24641522, 0xd3b7973b, 0x702138a4) == 0x7a290d5d
    ensures NextWord(0x840abf27, 0x9f47bf94, 0x93f5997f, 0xd3b7973b) == 0x065c43da
  {
  }

  lemma Words48()
    ensures NextWord(0x7a290d5d, 0xf0a64f5a, 0x3b68ba73, 0x93f5997f) == 0xfb3e89cb
    ensures NextWord(0x065c43da, 0x3e246a79, 0xaff4ffc1, 0x3b68ba73) == 0xcc7617db
    ensures NextWord(0xfb3e89cb, 0x27333ba3, 0xf10a5c62, 0xaff4ffc1) == 0xb9e66c34
    ensures NextWord(0xcc7617db, 0x0c4763f2, 0x0a8b3996, 0xf10a5c62) == 0xa9993667
    ensures NextWord(0xb9e66c34, 0x840abf27, 0x72af830a, 0x0a8b3996) == 0x84badedd
    ensures NextWord(0xa9993667, 0x7a290d5d, 0x9409e33e, 0x72af830a) == 0xc21462bc
    ensures NextWord(0x84badedd, 0x065c43da, 0x24641522, 0x9409e33e) == 0x1487472c
    ensures NextWord(0xc21462bc, 0xfb3e89cb, 0x9f47bf94, 0x24641522) == 0xb20f7a99
  {
  }

  lemma Words56()
    ensures NextWord(0x1487472c, 0xcc7617db, 0xf0a64f5a, 0x9f47bf94) == 0xef57b9cd
    ensures NextWord(0xb20f7a99, 0xb9e66c34, 0x3e246a79, 0xf0a64f5a) == 0xebe6b238
    ensures NextWord(0xef57b9cd, 0xa9993667, 0x27333ba3, 0x3e246a79) == 0x9fe3095e
    ensures NextWord(0xebe6b238, 0x84badedd, 0x0c4763f2, 0x27333ba3) == 0x78bc8d4b
    ensures NextWord(0x9fe3095e, 0xc21462bc, 0x840abf27, 0x0c4763f2) == 0xa43fcf15
    ensures NextWord(0x78bc8d4b, 0x1487472c, 0x7a290d5d, 0x840abf27) == 0x668b2ff8
    ensures NextWord(0xa43fcf15, 0xb20f7a99, 0x065c43da, 0x7a290d5d) == 0xeeaba2cc
    ensures NextWord(0x668b2ff8, 0xef57b9cd, 0xfb3e89cb, 0x065c43da) == 0x12b1edeb
  {
  }

  lemma BytesWidened()
    ensures Widened(0) == 0 && Widened(0x61) == 0x61 && Widened(0x62) == 0x62 && Widened(0x63) == 0x63
    ensures Widened(0x80) == 0x80 && Widened(24) == 24
  {
  }

  lemma FirstWord()
    ensures FourBytes(0x61, 0x62, 0x63, 0x80) == 0x61626380
  {
    var w: bv32 := 0x61626380;
    assert Shr(w, 24) == 0x61 && Shr(w, 16) & 0xFF == 0x62 && Shr(w, 8) & 0xFF == 0x63 && w & 0xFF == 0x80;
    FourBytesUndo(w);
  }

  lemma LowByte(d: bv32)
    ensures FourBytes(0, 0, 0, d) == d
  {
  }

  lemma WordOf(b: Block, t: nat)
    requires IsAbc(b) && t < 16
    ensures Schedule(b, t) == if t == 0 then 0x61626380 else if t == 15 then 24 else 0
  {
    hide Widened, FourBytes;
    BytesWidened();
    FirstWord();
    LowByte(0);
    LowByte(24);
  }

  lemma ScheduleGoesOn(b: Block, t: nat)
    requires 16 <= t < 64
    ensures Schedule(b, t) ==
            NextWord(Schedule(b, t - 2), Schedule(b, t - 7), Schedule(b, t - 15), Schedule(b, t - 16))
  {
    hide Sum4, SmallSigma0, SmallSigma1, Word;
  }

  /** The words w are those of the schedule from t on. */
  predicate Scheduled(b: Block, w: seq<bv32>, t: nat)
    requires t + |w| <= 64
  {
    forall i :: 0 <= i < |w| ==> Schedule(b, t + i) == w[i]
  }

  predicate Follows(w: seq<bv32>, j: nat)
    requires 16 <= j < |w|
  {
    w[j] == NextWord(w[j - 2], w[j - 7], w[j - 15], w[j - 16])
  }

  lemma {:induction false} RowFollows(b: Block, w: seq<bv32>, t: nat, n: nat)
    requires |w| == 24 && t + 24 <= 64 && Scheduled(b, w[..16], t) && 16 <= n <= 24
    requires forall j :: 16 <= j < n ==> Follows(w, j)
    ensures Scheduled(b, w[..n], t)
  {
    hide NextWord, Schedule;
    if n > 16 {
      RowFollows(b, w, t, n - 1);
      var v := w[..n - 1];
      assert v[n - 3] == w[n - 3] && v[n - 8] == w[n - 8] && v[n - 16] == w[n - 16] && v[n - 17] == w[n - 17];
      assert Follows(w, n - 1);
      ScheduleGoesOn(b, t + n - 1);
      assert forall i :: 0 <= i < n - 1 ==> w[..n][i] == v[i];
    }
  }

  predicate FollowsAll(w: seq<bv32>)
    requires |w| == 24
  {
    forall j :: 16 <= j < 24 ==> Follows(w, j)
  }

  lemma NextRow(b: Block, x: seq<bv32>, y: seq<bv32>, z: seq<bv32>, t: nat)
    requires |x| == |y| == |z| == 8 && t + 24 <= 64 && Scheduled(b, x, t) && Scheduled(b, y, t + 8) && FollowsAll(x + y + z)
    ensures Scheduled(b, z, t + 16)
  {
    hide Schedule, Follows;
    var w := x + y + z;
    assert w[..16] == x + y && forall i :: 0 <= i < 8 ==> (x + y)[i] == x[i] && (x + y)[8 + i] == y[i];
    assert Scheduled(b, w[..16], t) by {
      forall i | 0 <= i < 16
        ensures Schedule(b, t + i) == w[..16][i]
      {
        if i >= 8 {
          assert Schedule(b, t + 8 + (i - 8)) == y[i - 8];
        }
      }
    }
    RowFollows(b, w, t, 24);
    assert w[..24] == w && forall i :: 0 <= i < 8 ==> w[16 + i] == z[i];
  }

  lemma Row0(b: Block)
    requires IsAbc(b)
    ensures Scheduled(b, [0x61626380, 0x00000000, 0x00000000, 0x00000000, 0x00000000, 0x00000000, 0x00000000, 0x00000000], 0)
  {
    hide Schedule;
    WordOf(b, 0);
    WordOf(b, 1);
    WordOf(b, 2);
    WordOf(b, 3);
    WordOf(b, 4);
    WordOf(b, 5);
    WordOf(b, 6);
    WordOf(b, 7);
  }

  lemma Row1(b: Block)
    requires IsAbc(b)
    ensures Scheduled(b, [0x00000000, 0x00000000, 0x00000000, 0x00000000, 0x00000000, 0x00000000, 0x00000000, 0x00000018], 8)
  {
    hide Schedule;
    WordOf(b, 8);
    WordOf(b, 9);
    WordOf(b, 10);
    WordOf(b, 11);
    WordOf(b, 12);
    WordOf(b, 13);
    WordOf(b, 14);
    WordOf(b, 15);
  }

  lemma Row2(b: Block)
    requires IsAbc(b)
    ensures Scheduled(b, [0x61626380, 0x000f0000, 0x7da86405, 0x600003c6, 0x3e9d7b78, 0x0183fc00, 0x12dcbfdb, 0xe2e2c38e], 16)
  {
    hide Schedule, NextWord;
    var x, y := [0x61626380, 0x00000000, 0x00000000, 0x00000000, 0x00000000, 0x00000000, 0x00000000, 0x00000000],
      [0x00000000, 0x00000000, 0x00000000, 0x00000000, 0x00000000, 0x00000000, 0x00000000, 0x00000018];
    var z := [0x61626380, 0x000f0000, 0x7da86405, 0x600003c6, 0x3e9d7b78, 0x0183fc00, 0x12dcbfdb, 0xe2e2c38e];
    Row0(b);
    Row1(b);
    Words16();
    NextRow(b, x, y, z, 0);
  }

  lemma Row3(b: Block)
    requires IsAbc(b)
    ensures Scheduled(b, [0xc8215c1a, 0xb73679a2, 0xe5bc3909, 0x32663c5b, 0x9d209d67, 0xec8726cb, 0x702138a4, 0xd3b7973b], 24)
  {
    hide Schedule, NextWord;
    var x, y := [0x00000000, 0x00000000, 0x00000000, 0x00000000, 0x00000000, 0x00000000, 0x00000000, 0x00000018],
      [0x61626380, 0x000f0000, 0x7da86405, 0x600003c6, 0x3e9d7b78, 0x0183fc00, 0x12dcbfdb, 0xe2e2c38e];
    var z := [0xc8215c1a, 0xb73679a2, 0xe5bc3909, 0x32663c5b, 0x9d209d67, 0xec8726cb, 0x702138a4, 0xd3b7973b];
    Row1(b);
    Row2(b);
    Words24();
    NextRow(b, x, y, z, 8);
  }

  lemma Row4(b: Block)
    requires IsAbc(b)
    ensures Scheduled(b, [0x93f5997f, 0x3b68ba73, 0xaff4ffc1, 0xf10a5c62, 0x0a8b3996, 0x72af830a, 0x9409e33e, 0x24641522], 32)
  {
    hide Schedule, NextWord;
    var x, y := [0x61626380, 0x000f0000, 0x7da86405, 0x600003c6, 0x3e9d7b78, 0x0183fc00, 0x12dcbfdb, 0xe2e2c38e],
      [0xc8215c1a, 0xb73679a2, 0xe5bc3909, 0x32663c5b, 0x9d209d67, 0xec8726cb, 0x702138a4, 0xd3b7973b];
    var z := [0x93f5997f, 0x3b68ba73, 0xaff4ffc1, 0xf10a5c62, 0x0a8b3996, 0x72af830a, 0x9409e33e, 0x24641522];
    Row2(b);
    Row3(b);
    Words32();
    NextRow(b, x, y, z, 16);
  }

  lemma Row5(b: Block)
    requires IsAbc(b)
    ensures Scheduled(b, [0x9f47bf94, 0xf0a64f5a, 0x3e246a79, 0x27333ba3, 0x0c4763f2, 0x840abf27, 0x7a290d5d, 0x065c43da], 40)
  {
    hide Schedule, NextWord;
    var x, y := [0xc8215c1a, 0xb73679a2, 0xe5bc3909, 0x32663c5b, 0x9d209d67, 0xec8726cb, 0x702138a4, 0xd3b7973b],
      [0x93f5997f, 0x3b68ba73, 0xaff4ffc1, 0xf10a5c62, 0x0a8b3996, 0x72af830a, 0x9409e33e, 0x24641522];
    var z := [0x9f47bf94, 0xf0a64f5a, 0x3e246a79, 0x27333ba3, 0x0c4763f2, 0x840abf27, 0x7a290d5d, 0x065c43da];
    Row3(b);
    Row4(b);
    Words40();
    NextRow(b, x, y, z, 24);
  }

  lemma Row6(b: Block)
    requires IsAbc(b)
    ensures Scheduled(b, [0xfb3e89cb, 0xcc7617db, 0xb9e66c34, 0xa9993667, 0x84badedd, 0xc21462bc, 0x1487472c, 0xb20f7a99], 48)
  {
    hide Schedule, NextWord;
    var x, y := [0x93f5997f, 0x3b68ba73, 0xaff4ffc1, 0xf10a5c62, 0x0a8b3996, 0x72af830a, 0x9409e33e, 0x24641522],
      [0x9f47bf94, 0xf0a64f5a, 0x3e246a79, 0x27333ba3, 0x0c4763f2, 0x840abf27, 0x7a290d5d, 0x065c43da];
    var z := [0xfb3e89cb, 0xcc7617db, 0xb9e66c34, 0xa9993667, 0x84badedd, 0xc21462bc, 0x1487472c, 0xb20f7a99];
    Row4(b);
    Row5(b);
    Words48();
    NextRow(b, x, y, z, 32);
  }

  lemma Row7(b: Block)
    requires IsAbc(b)
    ensures Scheduled(b, [0xef57b9cd, 0xebe6b238, 0x9fe3095e, 0x78bc8d4b, 0xa43fcf15, 0x668b2ff8, 0xeeaba2cc, 0x12b1edeb], 56)
  {
    hide Schedule, NextWord;
    var x, y := [0x9f47bf94, 0xf0a64f5a, 0x3e246a79, 0x27333ba3, 0x0c4763f2, 0x840abf27, 0x7a290d5d, 0x065c43da],
      [0xfb3e89cb, 0xcc7617db, 0xb9e66c34, 0xa9993667, 0x84badedd, 0xc21462bc, 0x1487472c, 0xb20f7a99];
    var z := [0xef57b9cd, 0xebe6b238, 0x9fe3095e, 0x78bc8d4b, 0xa43fcf15, 0x668b2ff8, 0xeeaba2cc, 0x12b1edeb];
    Row5(b);
    Row6(b);
    Words56();
    NextRow(b, x, y, z, 40);
  }

  // ---------- The rounds ----------

  lemma Constants0()
    ensures RoundConstant(0) == 0x428a2f98 && RoundConstant(1) == 0x71374491 && RoundConstant(2) == 0xb5c0fbcf && RoundConstant(3) == 0xe9b5dba5
    ensures RoundConstant(4) == 0x3956c25b && RoundConstant(5) == 0x59f111f1 && RoundConstant(6) == 0x923f82a4 && RoundConstant(7) == 0xab1c5ed5
  {
    assert K[0] == [0x428a2f98, 0x71374491, 0xb5c0fbcf, 0xe9b5dba5, 0x3956c25b, 0x59f111f1, 0x923f82a4, 0xab1c5ed5];
  }

  lemma Turns0()
    ensures Round([0x6a09e667, 0xbb67ae85, 0x3c6ef372, 0xa54ff53a, 0x510e527f, 0x9b05688c, 0x1f83d9ab, 0x5be0cd19], 0x428a2f98, 0x61626380) ==
            [0x5d6aebcd, 0x6a09e667, 0xbb67ae85, 0x3c6ef372, 0xfa2a4622, 0x510e527f, 0x9b05688c, 0x1f83d9ab]
    ensures Round([0x5d6aebcd, 0x6a09e667, 0xbb67ae85, 0x3c6ef372, 0xfa2a4622, 0x510e527f, 0x9b05688c, 0x1f83d9ab], 0x71374491, 0x00000000) ==
            [0x5a6ad9ad, 0x5d6aebcd, 0x6a09e667, 0xbb67ae85, 0x78ce7989, 0xfa2a4622, 0x510e527f, 0x9b05688c]
    ensures Round([0x5a6ad9ad, 0x5d6aebcd, 0x6a09e667, 0xbb67ae85, 0x78ce7989, 0xfa2a4622, 0x510e527f, 0x9b05688c], 0xb5c0fbcf, 0x00000000) ==
            [0xc8c347a7, 0x5a6ad9ad, 0x5d6aebcd, 0x6a09e667, 0xf92939eb, 0x78ce7989, 0xfa2a4622, 0x510e527f]
    ensures Round([0xc8c347a7, 0x5a6ad9ad, 0x5d6aebcd, 0x6a09e667, 0xf92939eb, 0x78ce7989, 0xfa2a4622, 0x510e527f], 0xe9b5dba5, 0x00000000) ==
            [0xd550f666, 0xc8c347a7, 0x5a6ad9ad, 0x5d6aebcd, 0x24e00850, 0xf92939eb, 0x78ce7989, 0xfa2a4622]
    ensures Round([0xd550f666, 0xc8c347a7, 0x5a6ad9ad, 0x5d6aebcd, 0x24e00850, 0xf92939eb, 0x78ce7989, 0xfa2a4622], 0x3956c25b, 0x00000000) ==
            [0x04409a6a, 0xd550f666, 0xc8c347a7, 0x5a6ad9ad, 0x43ada245, 0x24e00850, 0xf92939eb, 0x78ce7989]
    ensures Round([0x04409a6a, 0xd550f666, 0xc8c347a7, 0x5a6ad9ad, 0x43ada245, 0x24e00850, 0xf92939eb, 0x78ce7989], 0x59f111f1, 0x00000000) ==
            [0x2b4209f5, 0x04409a6a, 0xd550f666, 0xc8c347a7, 0x714260ad, 0x43ada245, 0x24e00850, 0xf92939eb]
    ensures Round([0x2b4209f5, 0x04409a6a, 0xd550f666, 0xc8c347a7, 0x714260ad, 0x43ada245, 0x24e00850, 0xf92939eb], 0x923f82a4, 0x00000000) ==
            [0xe5030380, 0x2b4209f5, 0x04409a6a, 0xd550f666, 0x9b27a401, 0x714260ad, 0x43ada245, 0x24e00850]
    ensures Round([0xe5030380, 0x2b4209f5, 0x04409a6a, 0xd550f666, 0x9b27a401, 0x714260ad, 0x43ada245, 0x24e00850], 0xab1c5ed5, 0x00000000) ==
            [0x85a07b5f, 0xe5030380, 0x2b4209f5, 0x04409a6a, 0x0c657a79, 0x9b27a401, 0x714260ad, 0x43ada245]
  {
  }

  lemma After8(b: Block)
    requires IsAbc(b)
    ensures Rounds(INIT, b, 8) == [0x85a07b5f, 0xe5030380, 0x2b4209f5, 0x04409a6a, 0x0c657a79, 0x9b27a401, 0x714260ad, 0x43ada245]
  {
    hide Round, Schedule, RoundConstant, Rounds;
    NoRounds(INIT, b);
    Row0(b);
    Constants0();
    Turns0();
    var row := [0x61626380, 0x00000000, 0x00000000, 0x00000000, 0x00000000, 0x00000000, 0x00000000, 0x00000000];
    assert Schedule(b, 0 + 0) == row[0];
    RoundsNext(INIT, b, 0);
    assert Schedule(b, 0 + 1) == row[1];
    RoundsNext(INIT, b, 1);
    assert Schedule(b, 0 + 2) == row[2];
    RoundsNext(INIT, b, 2);
    assert Schedule(b, 0 + 3) == row[3];
    RoundsNext(INIT, b, 3);
    assert Schedule(b, 0 + 4) == row[4];
    RoundsNext(INIT, b, 4);
    assert Schedule(b, 0 + 5) == row[5];
    RoundsNext(INIT, b, 5);
    assert Schedule(b, 0 + 6) == row[6];
    RoundsNext(INIT, b, 6);
    assert Schedule(b, 0 + 7) == row[7];
    RoundsNext(INIT, b, 7);
  }

  lemma Constants1()
    ensures RoundConstant(8) == 0xd807aa98 && RoundConstant(9) == 0x12835b01 && RoundConstant(10) == 0x243185be && RoundConstant(11) == 0x550c7dc3
    ensures RoundConstant(12) == 0x72be5d74 && RoundConstant(13) == 0x80deb1fe && RoundConstant(14) == 0x9bdc06a7 && RoundConstant(15) == 0xc19bf174
  {
    assert K[1] == [0xd807aa98, 0x12835b01, 0x243185be, 0x550c7dc3, 0x72be5d74, 0x80deb1fe, 0x9bdc06a7, 0xc19bf174];
  }

  lemma Turns1()
    ensures Round([0x85a07b5f, 0xe5030380, 0x2b4209f5, 0x04409a6a, 0x0c657a79, 0x9b27a401, 0x714260ad, 0x43ada245], 0xd807aa98, 0x00000000) ==
            [0x8e04ecb9, 0x85a07b5f, 0xe5030380, 0x2b4209f5, 0x32ca2d8c, 0x0c657a79, 0x9b27a401, 0x714260ad]
    ensures Round([0x8e04ecb9, 0x85a07b5f, 0xe5030380, 0x2b4209f5, 0x32ca2d8c, 0x0c657a79, 0x9b27a401, 0x714260ad], 0x12835b01, 0x00000000) ==
            [0x8c87346b, 0x8e04ecb9, 0x85a07b5f, 0xe5030380, 0x1cc92596, 0x32ca2d8c, 0x0c657a79, 0x9b27a401]
    ensures Round([0x8c87346b, 0x8e04ecb9, 0x85a07b5f, 0xe5030380, 0x1cc92596, 0x32ca2d8c, 0x0c657a79, 0x9b27a401], 0x243185be, 0x00000000) ==
            [0x4798a3f4, 0x8c87346b, 0x8e04ecb9, 0x85a07b5f, 0x436b23e8, 0x1cc92596, 0x32ca2d8c, 0x0c657a79]
    ensures Round([0x4798a3f4, 0x8c87346b, 0x8e04ecb9, 0x85a07b5f, 0x436b23e8, 0x1cc92596, 0x32ca2d8c, 0x0c657a79], 0x550c7dc3, 0x00000000) ==
            [0xf71fc5a9, 0x4798a3f4, 0x8c87346b, 0x8e04ecb9, 0x816fd6e9, 0x436b23e8, 0x1cc92596, 0x32ca2d8c]
    ensures Round([0xf71fc5a9, 0x4798a3f4, 0x8c87346b, 0x8e04ecb9, 0x816fd6e9, 0x436b23e8, 0x1cc92596, 0x32ca2d8c], 0x72be5d74, 0x00000000) ==
            [0x87912990, 0xf71fc5a9, 0x4798a3f4, 0x8c87346b, 0x1e578218, 0x816fd6e9, 0x436b23e8, 0x1cc92596]
    ensures Round([0x87912990, 0xf71fc5a9, 0x4798a3f4, 0x8c87346b, 0x1e578218, 0x816fd6e9, 0x436b23e8, 0x1cc92596], 0x80deb1fe, 0x00000000) ==
            [0xd932eb16, 0x87912990, 0xf71fc5a9, 0x4798a3f4, 0x745a48de, 0x1e578218, 0x816fd6e9, 0x436b23e8]
    ensures Round([0xd932eb16, 0x87912990, 0xf71fc5a9, 0x4798a3f4, 0x745a48de, 0x1e578218, 0x816fd6e9, 0x436b23e8], 0x9bdc06a7, 0x00000000) ==
            [0xc0645fde, 0xd932eb16, 0x87912990, 0xf71fc5a9, 0x0b92f20c, 0x745a48de, 0x1e578218, 0x816fd6e9]
    ensures Round([0xc0645fde, 0xd932eb16, 0x87912990, 0xf71fc5a9, 0x0b92f20c, 0x745a48de, 0x1e578218, 0x816fd6e9], 0xc19bf174, 0x00000018) ==
            [0xb0fa238e, 0xc0645fde, 0xd932eb16, 0x87912990, 0x07590dcd, 0x0b92f20c, 0x745a48de, 0x1e578218]
  {
  }

  lemma After16(b: Block)
    requires IsAbc(b)
    ensures Rounds(INIT, b, 16) == [0xb0fa238e, 0xc0645fde, 0xd932eb16, 0x87912990, 0x07590dcd, 0x0b92f20c, 0x745a48de, 0x1e578218]
  {
    hide Round, Schedule, RoundConstant, Rounds;
    After8(b);
    Row1(b);
    Constants1();
    Turns1();
    var row := [0x00000000, 0x00000000, 0x00000000, 0x00000000, 0x00000000, 0x00000000, 0x00000000, 0x00000018];
    assert Schedule(b, 8 + 0) == row[0];
    RoundsNext(INIT, b, 8);
    assert Schedule(b, 8 + 1) == row[1];
    RoundsNext(INIT, b, 9);
    assert Schedule(b, 8 + 2) == row[2];
    RoundsNext(INIT, b, 10);
    assert Schedule(b, 8 + 3) == row[3];
    RoundsNext(INIT, b, 11);
    assert Schedule(b, 8 + 4) == row[4];
    RoundsNext(INIT, b, 12);
    assert Schedule(b, 8 + 5) == row[5];
    RoundsNext(INIT, b, 13);
    assert Schedule(b, 8 + 6) == row[6];
    RoundsNext(INIT, b, 14);
    assert Schedule(b, 8 + 7) == row[7];
    RoundsNext(INIT, b, 15);
  }

  lemma Constants2()
    ensures RoundConstant(16) == 0xe49b69c1 && RoundConstant(17) == 0xefbe4786 && RoundConstant(18) == 0x0fc19dc6 && RoundConstant(19) == 0x240ca1cc
    ensures RoundConstant(20) == 0x2de92c6f && RoundConstant(21) == 0x4a7484aa && RoundConstant(22) == 0x5cb0a9dc && RoundConstant(23) == 0x76f988da
  {
    assert K[2] == [0xe49b69c1, 0xefbe4786, 0x0fc19dc6, 0x240ca1cc, 0x2de92c6f, 0x4a7484aa, 0x5cb0a9dc, 0x76f988da];
  }

  lemma Turns2()
    ensures Round([0xb0fa238e, 0xc0645fde, 0xd932eb16, 0x87912990, 0x07590dcd, 0x0b92f20c, 0x745a48de, 0x1e578218], 0xe49b69c1, 0x61626380) ==
            [0x21da9a9b, 0xb0fa238e, 0xc0645fde, 0xd932eb16, 0x8034229c, 0x07590dcd, 0x0b92f20c, 0x745a48de]
    ensures Round([0x21da9a9b, 0xb0fa238e, 0xc0645fde, 0xd932eb16, 0x8034229c, 0x07590dcd, 0x0b92f20c, 0x745a48de], 0xefbe4786, 0x000f0000) ==
            [0xc2fbd9d1, 0x21da9a9b, 0xb0fa238e, 0xc0645fde, 0x846ee454, 0x8034229c, 0x07590dcd, 0x0b92f20c]
    ensures Round([0xc2fbd9d1, 0x21da9a9b, 0xb0fa238e, 0xc0645fde, 0x846ee454, 0x8034229c, 0x07590dcd, 0x0b92f20c], 0x0fc19dc6, 0x7da86405) ==
            [0xfe777bbf, 0xc2fbd9d1, 0x21da9a9b, 0xb0fa238e, 0xcc899961, 0x846ee454, 0x8034229c, 0x07590dcd]
    ensures Round([0xfe777bbf, 0xc2fbd9d1, 0x21da9a9b, 0xb0fa238e, 0xcc899961, 0x846ee454, 0x8034229c, 0x07590dcd], 0x240ca1cc, 0x600003c6) ==
            [0xe1f20c33, 0xfe777bbf, 0xc2fbd9d1, 0x21da9a9b, 0xb0638179, 0xcc899961, 0x846ee454, 0x8034229c]
    ensures Round([0xe1f20c33, 0xfe777bbf, 0xc2fbd9d1, 0x21da9a9b, 0xb0638179, 0xcc899961, 0x846ee454, 0x8034229c], 0x2de92c6f, 0x3e9d7b78) ==
            [0x9dc68b63, 0xe1f20c33, 0xfe777bbf, 0xc2fbd9d1, 0x8ada8930, 0xb0638179, 0xcc899961, 0x846ee454]
    ensures Round([0x9dc68b63, 0xe1f20c33, 0xfe777bbf, 0xc2fbd9d1, 0x8ada8930, 0xb0638179, 0xcc899961, 0x846ee454], 0x4a7484aa, 0x0183fc00) ==
            [0xc2606d6d, 0x9dc68b63, 0xe1f20c33, 0xfe777bbf, 0xe1257970, 0x8ada8930, 0xb0638179, 0xcc899961]
    ensures Round([0xc2606d6d, 0x9dc68b63, 0xe1f20c33, 0xfe777bbf, 0xe1257970, 0x8ada8930, 0xb0638179, 0xcc899961], 0x5cb0a9dc, 0x12dcbfdb) ==
            [0xa7a3623f, 0xc2606d6d, 0x9dc68b63, 0xe1f20c33, 0x49f5114a, 0xe1257970, 0x8ada8930, 0xb0638179]
    ensures Round([0xa7a3623f, 0xc2606d6d, 0x9dc68b63, 0xe1f20c33, 0x49f5114a, 0xe1257970, 0x8ada8930, 0xb0638179], 0x76f988da, 0xe2e2c38e) ==
            [0xc5d53d8d, 0xa7a3623f, 0xc2606d6d, 0x9dc68b63, 0xaa47c347, 0x49f5114a, 0xe1257970, 0x8ada8930]
  {
  }

  lemma After24(b: Block)
    requires IsAbc(b)
    ensures Rounds(INIT, b, 24) == [0xc5d53d8d, 0xa7a3623f, 0xc2606d6d, 0x9dc68b63, 0xaa47c347, 0x49f5114a, 0xe1257970, 0x8ada8930]
  {
    hide Round, Schedule, RoundConstant, Rounds;
    After16(b);
    Row2(b);
    Constants2();
    Turns2();
    var row := [0x61626380, 0x000f0000, 0x7da86405, 0x600003c6, 0x3e9d7b78, 0x0183fc00, 0x12dcbfdb, 0xe2e2c38e];
    assert Schedule(b, 16 + 0) == row[0];
    RoundsNext(INIT, b, 16);
    assert Schedule(b, 16 + 1) == row[1];
    RoundsNext(INIT, b, 17);
    assert Schedule(b, 16 + 2) == row[2];
    RoundsNext(INIT, b, 18);
    assert Schedule(b, 16 + 3) == row[3];
    RoundsNext(INIT, b, 19);
    assert Schedule(b, 16 + 4) == row[4];
    RoundsNext(INIT, b, 20);
    assert Schedule(b, 16 + 5) == row[5];
    RoundsNext(INIT, b, 21);
    assert Schedule(b, 16 + 6) == row[6];
    RoundsNext(INIT, b, 22);
    assert Schedule(b, 16 + 7) == row[7];
    RoundsNext(INIT, b, 23);
  }

  lemma Constants3()
    ensures RoundConstant(24) == 0x983e5152 && RoundConstant(25) == 0xa831c66d && RoundConstant(26) == 0xb00327c8 && RoundConstant(27) == 0xbf597fc7
    ensures RoundConstant(28) == 0xc6e00bf3 && RoundConstant(29) == 0xd5a79147 && RoundConstant(30) == 0x06ca6351 && RoundConstant(31) == 0x14292967
  {
    assert K[3] == [0x983e5152, 0xa831c66d, 0xb00327c8, 0xbf597fc7, 0xc6e00bf3, 0xd5a79147, 0x06ca6351, 0x14292967];
  }

  lemma Turns3()
    ensures Round([0xc5d53d8d, 0xa7a3623f, 0xc2606d6d, 0x9dc68b63, 0xaa47c347, 0x49f5114a, 0xe1257970, 0x8ada8930], 0x983e5152, 0xc8215c1a) ==
            [0x1c2c2838, 0xc5d53d8d, 0xa7a3623f, 0xc2606d6d, 0x2823ef91, 0xaa47c347, 0x49f5114a, 0xe1257970]
    ensures Round([0x1c2c2838, 0xc5d53d8d, 0xa7a3623f, 0xc2606d6d, 0x2823ef91, 0xaa47c347, 0x49f5114a, 0xe1257970], 0xa831c66d, 0xb73679a2) ==
            [0xcde8037d, 0x1c2c2838, 0xc5d53d8d, 0xa7a3623f, 0x14383d8e, 0x2823ef91, 0xaa47c347, 0x49f5114a]
    ensures Round([0xcde8037d, 0x1c2c2838, 0xc5d53d8d, 0xa7a3623f, 0x14383d8e, 0x2823ef91, 0xaa47c347, 0x49f5114a], 0xb00327c8, 0xe5bc3909) ==
            [0xb62ec4bc, 0xcde8037d, 0x1c2c2838, 0xc5d53d8d, 0xc74c6516, 0x14383d8e, 0x2823ef91, 0xaa47c347]
    ensures Round([0xb62ec4bc, 0xcde8037d, 0x1c2c2838, 0xc5d53d8d, 0xc74c6516, 0x14383d8e, 0x2823ef91, 0xaa47c347], 0xbf597fc7, 0x32663c5b) ==
            [0x77d37528, 0xb62ec4bc, 0xcde8037d, 0x1c2c2838, 0xedffbff8, 0xc74c6516, 0x14383d8e, 0x2823ef91]
    ensures Round([0x77d37528, 0xb62ec4bc, 0xcde8037d, 0x1c2c2838, 0xedffbff8, 0xc74c6516, 0x14383d8e, 0x2823ef91], 0xc6e00bf3, 0x9d209d67) ==
            [0x363482c9, 0x77d37528, 0xb62ec4bc, 0xcde8037d, 0x6112a3b7, 0xedffbff8, 0xc74c6516, 0x14383d8e]
    ensures Round([0x363482c9, 0x77d37528, 0xb62ec4bc, 0xcde8037d, 0x6112a3b7, 0xedffbff8, 0xc74c6516, 0x14383d8e], 0xd5a79147, 0xec8726cb) ==
            [0xa0060b30, 0x363482c9, 0x77d37528, 0xb62ec4bc, 0xade79437, 0x6112a3b7, 0xedffbff8, 0xc74c6516]
    ensures Round([0xa0060b30, 0x363482c9, 0x77d37528, 0xb62ec4bc, 0xade79437, 0x6112a3b7, 0xedffbff8, 0xc74c6516], 0x06ca6351, 0x702138a4) ==
            [0xea992a22, 0xa0060b30, 0x363482c9, 0x77d37528, 0x0109ab3a, 0xade79437, 0x6112a3b7, 0xedffbff8]
    ensures Round([0xea992a22, 0xa0060b30, 0x363482c9, 0x77d37528, 0x0109ab3a, 0xade79437, 0x6112a3b7, 0xedffbff8], 0x14292967, 0xd3b7973b) ==
            [0x73b33bf5, 0xea992a22, 0xa0060b30, 0x363482c9, 0xba591112, 0x0109ab3a, 0xade79437, 0x6112a3b7]
  {
  }

  lemma After32(b: Block)
    requires IsAbc(b)
    ensures Rounds(INIT, b, 32) == [0x73b33bf5, 0xea992a22, 0xa0060b30, 0x363482c9, 0xba591112, 0x0109ab3a, 0xade79437, 0x6112a3b7]
  {
    hide Round, Schedule, RoundConstant, Rounds;
    After24(b);
    Row3(b);
    Constants3();
    Turns3();
    var row := [0xc8215c1a, 0xb73679a2, 0xe5bc3909, 0x32663c5b, 0x9d209d67, 0xec8726cb, 0x702138a4, 0xd3b7973b];
    assert Schedule(b, 24 + 0) == row[0];
    RoundsNext(INIT, b, 24);
    assert Schedule(b, 24 + 1) == row[1];
    RoundsNext(INIT, b, 25);
    assert Schedule(b, 24 + 2) == row[2];
    RoundsNext(INIT, b, 26);
    assert Schedule(b, 24 + 3) == row[3];
    RoundsNext(INIT, b, 27);
    assert Schedule(b, 24 + 4) == row[4];
    RoundsNext(INIT, b, 28);
    assert Schedule(b, 24 + 5) == row[5];
    RoundsNext(INIT, b, 29);
    assert Schedule(b, 24 + 6) == row[6];
    RoundsNext(INIT, b, 30);
    assert Schedule(b, 24 + 7) == row[7];
    RoundsNext(INIT, b, 31);
  }

  lemma Constants4()
    ensures RoundConstant(32) == 0x27b70a85 && RoundConstant(33) == 0x2e1b2138 && RoundConstant(34) == 0x4d2c6dfc && RoundConstant(35) == 0x53380d13
    ensures RoundConstant(36) == 0x650a7354 && RoundConstant(37) == 0x766a0abb && RoundConstant(38) == 0x81c2c92e && RoundConstant(39) == 0x92722c85
  {
    assert K[4] == [0x27b70a85, 0x2e1b2138, 0x4d2c6dfc, 0x53380d13, 0x650a7354, 0x766a0abb, 0x81c2c92e, 0x92722c85];
  }

  lemma Turns4()
    ensures Round([0x73b33bf5, 0xea992a22, 0xa0060b30, 0x363482c9, 0xba591112, 0x0109ab3a, 0xade79437, 0x6112a3b7], 0x27b70a85, 0x93f5997f) ==
            [0x98e12507, 0x73b33bf5, 0xea992a22, 0xa0060b30, 0x9cd9f5f6, 0xba591112, 0x0109ab3a, 0xade79437]
    ensures Round([0x98e12507, 0x73b33bf5, 0xea992a22, 0xa0060b30, 0x9cd9f5f6, 0xba591112, 0x0109ab3a, 0xade79437], 0x2e1b2138, 0x3b68ba73) ==
            [0xfe604df5, 0x98e12507, 0x73b33bf5, 0xea992a22, 0x59249dd3, 0x9cd9f5f6, 0xba591112, 0x0109ab3a]
    ensures Round([0xfe604df5, 0x98e12507, 0x73b33bf5, 0xea992a22, 0x59249dd3, 0x9cd9f5f6, 0xba591112, 0x0109ab3a], 0x4d2c6dfc, 0xaff4ffc1) ==
            [0xa9a7738c, 0xfe604df5, 0x98e12507, 0x73b33bf5, 0x085f3833, 0x59249dd3, 0x9cd9f5f6, 0xba591112]
    ensures Round([0xa9a7738c, 0xfe604df5, 0x98e12507, 0x73b33bf5, 0x085f3833, 0x59249dd3, 0x9cd9f5f6, 0xba591112], 0x53380d13, 0xf10a5c62) ==
            [0x65a0cfe4, 0xa9a7738c, 0xfe604df5, 0x98e12507, 0xf4b002d6, 0x085f3833, 0x59249dd3, 0x9cd9f5f6]
    ensures Round([0x65a0cfe4, 0xa9a7738c, 0xfe604df5, 0x98e12507, 0xf4b002d6, 0x085f3833, 0x59249dd3, 0x9cd9f5f6], 0x650a7354, 0x0a8b3996) ==
            [0x41a65cb1, 0x65a0cfe4, 0xa9a7738c, 0xfe604df5, 0x0772a26b, 0xf4b002d6, 0x085f3833, 0x59249dd3]
    ensures Round([0x41a65cb1, 0x65a0cfe4, 0xa9a7738c, 0xfe604df5, 0x0772a26b, 0xf4b002d6, 0x085f3833, 0x59249dd3], 0x766a0abb, 0x72af830a) ==
            [0x34df1604, 0x41a65cb1, 0x65a0cfe4, 0xa9a7738c, 0xa507a53d, 0x0772a26b, 0xf4b002d6, 0x085f3833]
    ensures Round([0x34df1604, 0x41a65cb1, 0x65a0cfe4, 0xa9a7738c, 0xa507a53d, 0x0772a26b, 0xf4b002d6, 0x085f3833], 0x81c2c92e, 0x9409e33e) ==
            [0x6dc57a8a, 0x34df1604, 0x41a65cb1, 0x65a0cfe4, 0xf0781bc8, 0xa507a53d, 0x0772a26b, 0xf4b002d6]
    ensures Round([0x6dc57a8a, 0x34df1604, 0x41a65cb1, 0x65a0cfe4, 0xf0781bc8, 0xa507a53d, 0x0772a26b, 0xf4b002d6], 0x92722c85, 0x24641522) ==
            [0x79ea687a, 0x6dc57a8a, 0x34df1604, 0x41a65cb1, 0x1efbc0a0, 0xf0781bc8, 0xa507a53d, 0x0772a26b]
  {
  }

  lemma After40(b: Block)
    requires IsAbc(b)
    ensures Rounds(INIT, b, 40) == [0x79ea687a, 0x6dc57a8a, 0x34df1604, 0x41a65cb1, 0x1efbc0a0, 0xf0781bc8, 0xa507a53d, 0x0772a26b]
  {
    hide Round, Schedule, RoundConstant, Rounds;
    After32(b);
    Row4(b);
    Constants4();
    Turns4();
    var row := [0x93f5997f, 0x3b68ba73, 0xaff4ffc1, 0xf10a5c62, 0x0a8b3996, 0x72af830a, 0x9409e33e, 0x24641522];
    assert Schedule(b, 32 + 0) == row[0];
    RoundsNext(INIT, b, 32);
    assert Schedule(b, 32 + 1) == row[1];
    RoundsNext(INIT, b, 33);
    assert Schedule(b, 32 + 2) == row[2];
    RoundsNext(INIT, b, 34);
    assert Schedule(b, 32 + 3) == row[3];
    RoundsNext(INIT, b, 35);
    assert Schedule(b, 32 + 4) == row[4];
    RoundsNext(INIT, b, 36);
    assert Schedule(b, 32 + 5) == row[5];
    RoundsNext(INIT, b, 37);
    assert Schedule(b, 32 + 6) == row[6];
    RoundsNext(INIT, b, 38);
    assert Schedule(b, 32 + 7) == row[7];
    RoundsNext(INIT, b, 39);
  }

  lemma Constants5()
    ensures RoundConstant(40) == 0xa2bfe8a1 && RoundConstant(41) == 0xa81a664b && RoundConstant(42) == 0xc24b8b70 && RoundConstant(43) == 0xc76c51a3
    ensures RoundConstant(44) == 0xd192e819 && RoundConstant(45) == 0xd6990624 && RoundConstant(46) == 0xf40e3585 && RoundConstant(47) == 0x106aa070
  {
    assert K[5] == [0xa2bfe8a1, 0xa81a664b, 0xc24b8b70, 0xc76c51a3, 0xd192e819, 0xd6990624, 0xf40e3585, 0x106aa070];
  }

  lemma Turns5()
    ensures Round([0x79ea687a, 0x6dc57a8a, 0x34df1604, 0x41a65cb1, 0x1efbc0a0, 0xf0781bc8, 0xa507a53d, 0x0772a26b], 0xa2bfe8a1, 0x9f47bf94) ==
            [0xd6670766, 0x79ea687a, 0x6dc57a8a, 0x34df1604, 0x26352d63, 0x1efbc0a0, 0xf0781bc8, 0xa507a53d]
    ensures Round([0xd6670766, 0x79ea687a, 0x6dc57a8a, 0x34df1604, 0x26352d63, 0x1efbc0a0, 0xf0781bc8, 0xa507a53d], 0xa81a664b, 0xf0a64f5a) ==
            [0xdf46652f, 0xd6670766, 0x79ea687a, 0x6dc57a8a, 0x838b2711, 0x26352d63, 0x1efbc0a0, 0xf0781bc8]
    ensures Round([0xdf46652f, 0xd6670766, 0x79ea687a, 0x6dc57a8a, 0x838b2711, 0x26352d63, 0x1efbc0a0, 0xf0781bc8], 0xc24b8b70, 0x3e246a79) ==
            [0x17aa0dfe, 0xdf46652f, 0xd6670766, 0x79ea687a, 0xdecd4715, 0x838b2711, 0x26352d63, 0x1efbc0a0]
    ensures Round([0x17aa0dfe, 0xdf46652f, 0xd6670766, 0x79ea687a, 0xdecd4715, 0x838b2711, 0x26352d63, 0x1efbc0a0], 0xc76c51a3, 0x27333ba3) ==
            [0x9d4baf93, 0x17aa0dfe, 0xdf46652f, 0xd6670766, 0xfda24c2e, 0xdecd4715, 0x838b2711, 0x26352d63]
    ensures Round([0x9d4baf93, 0x17aa0dfe, 0xdf46652f, 0xd6670766, 0xfda24c2e, 0xdecd4715, 0x838b2711, 0x26352d63], 0xd192e819, 0x0c4763f2) ==
            [0x26628815, 0x9d4baf93, 0x17aa0dfe, 0xdf46652f, 0xa80f11f0, 0xfda24c2e, 0xdecd4715, 0x838b2711]
    ensures Round([0x26628815, 0x9d4baf93, 0x17aa0dfe, 0xdf46652f, 0xa80f11f0, 0xfda24c2e, 0xdecd4715, 0x838b2711], 0xd6990624, 0x840abf27) ==
            [0x72ab4b91, 0x26628815, 0x9d4baf93, 0x17aa0dfe, 0xb7755da1, 0xa80f11f0, 0xfda24c2e, 0xdecd4715]
    ensures Round([0x72ab4b91, 0x26628815, 0x9d4baf93, 0x17aa0dfe, 0xb7755da1, 0xa80f11f0, 0xfda24c2e, 0xdecd4715], 0xf40e3585, 0x7a290d5d) ==
            [0xa14c14b0, 0x72ab4b91, 0x26628815, 0x9d4baf93, 0xd57b94a9, 0xb7755da1, 0xa80f11f0, 0xfda24c2e]
    ensures Round([0xa14c14b0, 0x72ab4b91, 0x26628815, 0x9d4baf93, 0xd57b94a9, 0xb7755da1, 0xa80f11f0, 0xfda24c2e], 0x106aa070, 0x065c43da) ==
            [0x4172328d, 0xa14c14b0, 0x72ab4b91, 0x26628815, 0xfecf0bc6, 0xd57b94a9, 0xb7755da1, 0xa80f11f0]
  {
  }

  lemma After48(b: Block)
    requires IsAbc(b)
    ensures Rounds(INIT, b, 48) == [0x4172328d, 0xa14c14b0, 0x72ab4b91, 0x26628815, 0xfecf0bc6, 0xd57b94a9, 0xb7755da1, 0xa80f11f0]
  {
    hide Round, Schedule, RoundConstant, Rounds;
    After40(b);
    Row5(b);
    Constants5();
    Turns5();
    var row := [0x9f47bf94, 0xf0a64f5a, 0x3e246a79, 0x27333ba3, 0x0c4763f2, 0x840abf27, 0x7a290d5d, 0x065c43da];
    assert Schedule(b, 40 + 0) == row[0];
    RoundsNext(INIT, b, 40);
    assert Schedule(b, 40 + 1) == row[1];
    RoundsNext(INIT, b, 41);
    assert Schedule(b, 40 + 2) == row[2];
    RoundsNext(INIT, b, 42);
    assert Schedule(b, 40 + 3) == row[3];
    RoundsNext(INIT, b, 43);
    assert Schedule(b, 40 + 4) == row[4];
    RoundsNext(INIT, b, 44);
    assert Schedule(b, 40 + 5) == row[5];
    RoundsNext(INIT, b, 45);
    assert Schedule(b, 40 + 6) == row[6];
    RoundsNext(INIT, b, 46);
    assert Schedule(b, 40 + 7) == row[7];
    RoundsNext(INIT, b, 47);
  }

  lemma Constants6()
    ensures RoundConstant(48) == 0x19a4c116 && RoundConstant(49) == 0x1e376c08 && RoundConstant(50) == 0x2748774c && RoundConstant(51) == 0x34b0bcb5
    ensures RoundConstant(52) == 0x391c0cb3 && RoundConstant(53) == 0x4ed8aa4a && RoundConstant(54) == 0x5b9cca4f && RoundConstant(55) == 0x682e6ff3
  {
    assert K[6] == [0x19a4c116, 0x1e376c08, 0x2748774c, 0x34b0bcb5, 0x391c0cb3, 0x4ed8aa4a, 0x5b9cca4f, 0x682e6ff3];
  }

  lemma Turns6()
    ensures Round([0x4172328d, 0xa14c14b0, 0x72ab4b91, 0x26628815, 0xfecf0bc6, 0xd57b94a9, 0xb7755da1, 0xa80f11f0], 0x19a4c116, 0xfb3e89cb) ==
            [0x05757ceb, 0x4172328d, 0xa14c14b0, 0x72ab4b91, 0xbd714038, 0xfecf0bc6, 0xd57b94a9, 0xb7755da1]
    ensures Round([0x05757ceb, 0x4172328d, 0xa14c14b0, 0x72ab4b91, 0xbd714038, 0xfecf0bc6, 0xd57b94a9, 0xb7755da1], 0x1e376c08, 0xcc7617db) ==
            [0xf11bfaa8, 0x05757ceb, 0x4172328d, 0xa14c14b0, 0x6e5c390c, 0xbd714038, 0xfecf0bc6, 0xd57b94a9]
    ensures Round([0xf11bfaa8, 0x05757ceb, 0x4172328d, 0xa14c14b0, 0x6e5c390c, 0xbd714038, 0xfecf0bc6, 0xd57b94a9], 0x2748774c, 0xb9e66c34) ==
            [0x7a0508a1, 0xf11bfaa8, 0x05757ceb, 0x4172328d, 0x52f1ccf7, 0x6e5c390c, 0xbd714038, 0xfecf0bc6]
    ensures Round([0x7a0508a1, 0xf11bfaa8, 0x05757ceb, 0x4172328d, 0x52f1ccf7, 0x6e5c390c, 0xbd714038, 0xfecf0bc6], 0x34b0bcb5, 0xa9993667) ==
            [0x886e7a22, 0x7a0508a1, 0xf11bfaa8, 0x05757ceb, 0x49231c1e, 0x52f1ccf7, 0x6e5c390c, 0xbd714038]
    ensures Round([0x886e7a22, 0x7a0508a1, 0xf11bfaa8, 0x05757ceb, 0x49231c1e, 0x52f1ccf7, 0x6e5c390c, 0xbd714038], 0x391c0cb3, 0x84badedd) ==
            [0x101fd28f, 0x886e7a22, 0x7a0508a1, 0xf11bfaa8, 0x529e7d00, 0x49231c1e, 0x52f1ccf7, 0x6e5c390c]
    ensures Round([0x101fd28f, 0x886e7a22, 0x7a0508a1, 0xf11bfaa8, 0x529e7d00, 0x49231c1e, 0x52f1ccf7, 0x6e5c390c], 0x4ed8aa4a, 0xc21462bc) ==
            [0xf5702fdb, 0x101fd28f, 0x886e7a22, 0x7a0508a1, 0x9f4787c3, 0x529e7d00, 0x49231c1e, 0x52f1ccf7]
    ensures Round([0xf5702fdb, 0x101fd28f, 0x886e7a22, 0x7a0508a1, 0x9f4787c3, 0x529e7d00, 0x49231c1e, 0x52f1ccf7], 0x5b9cca4f, 0x1487472c) ==
            [0x3ec45cdb, 0xf5702fdb, 0x101fd28f, 0x886e7a22, 0xe50e1b4f, 0x9f4787c3, 0x529e7d00, 0x49231c1e]
    ensures Round([0x3ec45cdb, 0xf5702fdb, 0x101fd28f, 0x886e7a22, 0xe50e1b4f, 0x9f4787c3, 0x529e7d00, 0x49231c1e], 0x682e6ff3, 0xb20f7a99) ==
            [0x38cc9913, 0x3ec45cdb, 0xf5702fdb, 0x101fd28f, 0x54cb266b, 0xe50e1b4f, 0x9f4787c3, 0x529e7d00]
  {
  }

  lemma After56(b: Block)
    requires IsAbc(b)
    ensures Rounds(INIT, b, 56) == [0x38cc9913, 0x3ec45cdb, 0xf5702fdb, 0x101fd28f, 0x54cb266b, 0xe50e1b4f, 0x9f4787c3, 0x529e7d00]
  {
    hide Round, Schedule, RoundConstant, Rounds;
    After48(b);
    Row6(b);
    Constants6();
    Turns6();
    var row := [0xfb3e89cb, 0xcc7617db, 0xb9e66c34, 0xa9993667, 0x84badedd, 0xc21462bc, 0x1487472c, 0xb20f7a99];
    assert Schedule(b, 48 + 0) == row[0];
    RoundsNext(INIT, b, 48);
    assert Schedule(b, 48 + 1) == row[1];
    RoundsNext(INIT, b, 49);
    assert Schedule(b, 48 + 2) == row[2];
    RoundsNext(INIT, b, 50);
    assert Schedule(b, 48 + 3) == row[3];
    RoundsNext(INIT, b, 51);
    assert Schedule(b, 48 + 4) == row[4];
    RoundsNext(INIT, b, 52);
    assert Schedule(b, 48 + 5) == row[5];
    RoundsNext(INIT, b, 53);
    assert Schedule(b, 48 + 6) == row[6];
    RoundsNext(INIT, b, 54);
    assert Schedule(b, 48 + 7) == row[7];
    RoundsNext(INIT, b, 55);
  }

  lemma Constants7()
    ensures RoundConstant(56) == 0x748f82ee && RoundConstant(57) == 0x78a5636f && RoundConstant(58) == 0x84c87814 && RoundConstant(59) == 0x8cc70208
    ensures RoundConstant(60) == 0x90befffa && RoundConstant(61) == 0xa4506ceb && RoundConstant(62) == 0xbef9a3f7 && RoundConstant(63) == 0xc67178f2
  {
    assert K[7] == [0x748f82ee, 0x78a5636f, 0x84c87814, 0x8cc70208, 0x90befffa, 0xa4506ceb, 0xbef9a3f7, 0xc67178f2];
  }

  lemma Turns7()
    ensures Round([0x38cc9913, 0x3ec45cdb, 0xf5702fdb, 0x101fd28f, 0x54cb266b, 0xe50e1b4f, 0x9f4787c3, 0x529e7d00], 0x748f82ee, 0xef57b9cd) ==
            [0xfcd1887b, 0x38cc9913, 0x3ec45cdb, 0xf5702fdb, 0x9b5e906c, 0x54cb266b, 0xe50e1b4f, 0x9f4787c3]
    ensures Round([0xfcd1887b, 0x38cc9913, 0x3ec45cdb, 0xf5702fdb, 0x9b5e906c, 0x54cb266b, 0xe50e1b4f, 0x9f4787c3], 0x78a5636f, 0xebe6b238) ==
            [0xc062d46f, 0xfcd1887b, 0x38cc9913, 0x3ec45cdb, 0x7e44008e, 0x9b5e906c, 0x54cb266b, 0xe50e1b4f]
    ensures Round([0xc062d46f, 0xfcd1887b, 0x38cc9913, 0x3ec45cdb, 0x7e44008e, 0x9b5e906c, 0x54cb266b, 0xe50e1b4f], 0x84c87814, 0x9fe3095e) ==
            [0xffb70472, 0xc062d46f, 0xfcd1887b, 0x38cc9913, 0x6d83bfc6, 0x7e44008e, 0x9b5e906c, 0x54cb266b]
    ensures Round([0xffb70472, 0xc062d46f, 0xfcd1887b, 0x38cc9913, 0x6d83bfc6, 0x7e44008e, 0x9b5e906c, 0x54cb266b], 0x8cc70208, 0x78bc8d4b) ==
            [0xb6ae8fff, 0xffb70472, 0xc062d46f, 0xfcd1887b, 0xb21bad3d, 0x6d83bfc6, 0x7e44008e, 0x9b5e906c]
    ensures Round([0xb6ae8fff, 0xffb70472, 0xc062d46f, 0xfcd1887b, 0xb21bad3d, 0x6d83bfc6, 0x7e44008e, 0x9b5e906c], 0x90befffa, 0xa43fcf15) ==
            [0xb85e2ce9, 0xb6ae8fff, 0xffb70472, 0xc062d46f, 0x961f4894, 0xb21bad3d, 0x6d83bfc6, 0x7e44008e]
    ensures Round([0xb85e2ce9, 0xb6ae8fff, 0xffb70472, 0xc062d46f, 0x961f4894, 0xb21bad3d, 0x6d83bfc6, 0x7e44008e], 0xa4506ceb, 0x668b2ff8) ==
            [0x04d24d6c, 0xb85e2ce9, 0xb6ae8fff, 0xffb70472, 0x948d25b6, 0x961f4894, 0xb21bad3d, 0x6d83bfc6]
    ensures Round([0x04d24d6c, 0xb85e2ce9, 0xb6ae8fff, 0xffb70472, 0x948d25b6, 0x961f4894, 0xb21bad3d, 0x6d83bfc6], 0xbef9a3f7, 0xeeaba2cc) ==
            [0xd39a2165, 0x04d24d6c, 0xb85e2ce9, 0xb6ae8fff, 0xfb121210, 0x948d25b6, 0x961f4894, 0xb21bad3d]
    ensures Round([0xd39a2165, 0x04d24d6c, 0xb85e2ce9, 0xb6ae8fff, 0xfb121210, 0x948d25b6, 0x961f4894, 0xb21bad3d], 0xc67178f2, 0x12b1edeb) ==
            [0x506e3058, 0xd39a2165, 0x04d24d6c, 0xb85e2ce9, 0x5ef50f24, 0xfb121210, 0x948d25b6, 0x961f4894]
  {
  }

  lemma After64(b: Block)
    requires IsAbc(b)
    ensures Rounds(INIT, b, 64) == [0x506e3058, 0xd39a2165, 0x04d24d6c, 0xb85e2ce9, 0x5ef50f24, 0xfb121210, 0x948d25b6, 0x961f4894]
  {
    hide Round, Schedule, RoundConstant, Rounds;
    After56(b);
    Row7(b);
    Constants7();
    Turns7();
    var row := [0xef57b9cd, 0xebe6b238, 0x9fe3095e, 0x78bc8d4b, 0xa43fcf15, 0x668b2ff8, 0xeeaba2cc, 0x12b1edeb];
    assert Schedule(b, 56 + 0) == row[0];
    RoundsNext(INIT, b, 56);
    assert Schedule(b, 56 + 1) == row[1];
    RoundsNext(INIT, b, 57);
    assert Schedule(b, 56 + 2) == row[2];
    RoundsNext(INIT, b, 58);
    assert Schedule(b, 56 + 3) == row[3];
    RoundsNext(INIT, b, 59);
    assert Schedule(b, 56 + 4) == row[4];
    RoundsNext(INIT, b, 60);
    assert Schedule(b, 56 + 5) == row[5];
    RoundsNext(INIT, b, 61);
    assert Schedule(b, 56 + 6) == row[6];
    RoundsNext(INIT, b, 62);
    assert Schedule(b, 56 + 7) == row[7];
    RoundsNext(INIT, b, 63);
  }

  // ---------- The digest ----------

  lemma LastSums()
    ensures Sum2(0x6a09e667, 0x506e3058) == 0xba7816bf
    ensures Sum2(0xbb67ae85, 0xd39a2165) == 0x8f01cfea
    ensures Sum2(0x3c6ef372, 0x04d24d6c) == 0x414140de
    ensures Sum2(0xa54ff53a, 0xb85e2ce9) == 0x5dae2223
    ensures Sum2(0x510e527f, 0x5ef50f24) == 0xb00361a3
    ensures Sum2(0x9b05688c, 0xfb121210) == 0x96177a9c
    ensures Sum2(0x1f83d9ab, 0x948d25b6) == 0xb410ff61
    ensures Sum2(0x5be0cd19, 0x961f4894) == 0xf20015ad
  {
  }

  /** The hash value after the block. */
  lemma AbcCompressed(b: Block)
    requires IsAbc(b)
    ensures Compress(INIT, b) == [0xba7816bf, 0x8f01cfea, 0x414140de, 0x5dae2223, 0xb00361a3, 0x96177a9c, 0xb410ff61, 0xf20015ad]
  {
    hide Rounds, Sum2;
    After64(b);
    LastSums();
    var row := [0x6a09e667, 0xbb67ae85, 0x3c6ef372, 0xa54ff53a, 0x510e527f, 0x9b05688c, 0x1f83d9ab, 0x5be0cd19];
    var v := Rounds(INIT, b, 64);
    assert INIT == row;
    assert forall i :: 0 <= i < 8 ==> Compress(INIT, b)[i] == Sum2(row[i], v[i]);
  }

  lemma WordsInBytes()
    ensures WordBytes(0xba7816bf) == [0xba, 0x78, 0x16, 0xbf]
    ensures WordBytes(0x8f01cfea) == [0x8f, 0x01, 0xcf, 0xea]
    ensures WordBytes(0x414140de) == [0x41, 0x41, 0x40, 0xde]
    ensures WordBytes(0x5dae2223) == [0x5d, 0xae, 0x22, 0x23]
    ensures WordBytes(0xb00361a3) == [0xb0, 0x03, 0x61, 0xa3]
    ensures WordBytes(0x96177a9c) == [0x96, 0x17, 0x7a, 0x9c]
    ensures WordBytes(0xb410ff61) == [0xb4, 0x10, 0xff, 0x61]
    ensures WordBytes(0xf20015ad) == [0xf2, 0x00, 0x15, 0xad]
  {
  }

  lemma {:induction false} ZerosInFront(n: nat)
    ensures forall i :: 0 <= i < n ==> BigEndian(0, n)[i] == 0
  {
    if n > 0 {
      ZerosInFront(n - 1);
      assert BigEndian(0, n) == BigEndian(0, n - 1) + [0];
    }
  }

  lemma LengthBytes()
    ensures forall i :: 0 <= i < 7 ==> BigEndian(24, 8)[i] == 0
    ensures BigEndian(24, 8)[7] == 24
  {
    ZerosInFront(7);
    assert BigEndian(24, 8) == BigEndian(0, 7) + [24];
  }

  lemma AbcPadded(m: seq<byte>)
    requires m == [0x61, 0x62, 0x63]
    ensures |Padded(m)| == 64 && IsAbc(BlockAt(Padded(m), 0))
  {
    hide BigEndian;
    LengthBytes();
    ShortTail(m, 0, 3);
  }

  /** The digest of `abc`, four bytes to a line. */
  lemma AbcDigest(m: seq<byte>, d: seq<byte>)
    requires m == [0x61, 0x62, 0x63] && d == Digest(m)
    ensures |d| == 32
    ensures d[0..4] == [0xba, 0x78, 0x16, 0xbf]
    ensures d[4..8] == [0x8f, 0x01, 0xcf, 0xea]
    ensures d[8..12] == [0x41, 0x41, 0x40, 0xde]
    ensures d[12..16] == [0x5d, 0xae, 0x22, 0x23]
    ensures d[16..20] == [0xb0, 0x03, 0x61, 0xa3]
    ensures d[20..24] == [0x96, 0x17, 0x7a, 0x9c]
    ensures d[24..28] == [0xb4, 0x10, 0xff, 0x61]
    ensures d[28..32] == [0xf2, 0x00, 0x15, 0xad]
  {
    hide Compress, WordBytes, Padded, DigestBytes, IsAbc, BlockAt;
    AbcPadded(m);
    var s := Padded(m);
    HashNext(s, 0);
    AbcCompressed(BlockAt(s, 0));
    NothingHashed(s);
    var h: Words8 := [0xba7816bf, 0x8f01cfea, 0x414140de, 0x5dae2223, 0xb00361a3, 0x96177a9c, 0xb410ff61, 0xf20015ad];
    assert d == DigestBytes(h, 8);
    WordsInBytes();
    DigestBytesAt(h, 8, 0);
    DigestBytesAt(h, 8, 1);
    DigestBytesAt(h, 8, 2);
    DigestBytesAt(h, 8, 3);
    DigestBytesAt(h, 8, 4);
    DigestBytesAt(h, 8, 5);
    DigestBytesAt(h, 8, 6);
    DigestBytesAt(h, 8, 7);
  }

  lemma NothingHashed(s: seq<byte>)
    ensures Hash(s, 0) == INIT
  {
  }
}
