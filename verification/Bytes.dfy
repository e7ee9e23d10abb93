/** Bytes, machine integers as bytes, and files as byte sequences. */
module Bytes {
  type byte = b: nat | b < 256

  const TWO_64: nat := 0x1_0000_0000_0000_0000
  const TWO_63: nat := 0x8000_0000_0000_0000

  type U64 = u: nat | u < 0x1_0000_0000_0000_0000
  type S64 = i: int | -0x8000_0000_0000_0000 <= i < 0x8000_0000_0000_0000

  /** The cast `(U64) i`. */
  function ToU64(i: S64): U64 {
    if i < 0 then i + TWO_64 else i
  }

  /** The cast `(S64) u`. */
  function ToS64(u: U64): S64 {
    if u >= TWO_63 then u - TWO_64 else u
  }

  lemma CastsUndo(i: S64, u: U64)
    ensures ToS64(ToU64(i)) == i
    ensures ToU64(ToS64(u)) == u
  {
  }

  function Pow256(n: nat): (p: nat)
    ensures p > 0
  {
    if n == 0 then 1 else 256 * Pow256(n - 1)
  }

  lemma Pow256Of8()
    ensures Pow256(8) == TWO_64
  {
    assert Pow256(4) == 0x1_0000_0000;
    assert Pow256(8) == 256 * (256 * (256 * (256 * Pow256(4))));
  }

  // ---------- Big-endian integers: the cells of INTEGER columns ----------

  /** The n low bytes of u, highest first. */
  function BigEndian(u: nat, n: nat): (s: seq<byte>)
    ensures |s| == n
  {
    if n == 0 then [] else BigEndian(u / 256, n - 1) + [u % 256]
  }

  function FromBigEndian(s: seq<byte>): nat {
    if s == [] then 0 else FromBigEndian(s[..|s| - 1]) * 256 + s[|s| - 1]
  }

  lemma {:induction false} BigEndianUndo(u: nat, n: nat)
    requires u < Pow256(n)
    ensures FromBigEndian(BigEndian(u, n)) == u
  {
    if n > 0 {
      BigEndianUndo(u / 256, n - 1);
      var s := BigEndian(u, n);
      assert s[..n - 1] == BigEndian(u / 256, n - 1);
    }
  }

  lemma {:induction false} FromBigEndianBound(s: seq<byte>)
    ensures FromBigEndian(s) < Pow256(|s|)
  {
    if s != [] {
      FromBigEndianBound(s[..|s| - 1]);
    }
  }

  /** The number whose eight bytes these are, the lowest first. */
  function Weighted(a: nat, b: nat, c: nat, d: nat, e: nat, f: nat, g: nat, h: nat): nat {
    a + 0x100 * b + 0x1_0000 * c + 0x100_0000 * d + 0x1_0000_0000 * e +
    0x100_0000_0000 * f + 0x1_0000_0000_0000 * g + 0x100_0000_0000_0000 * h
  }

  /** Eight bytes, the highest first. */
  lemma EightFromBigEndian(s: seq<byte>)
    requires |s| == 8
    ensures FromBigEndian(s) == Weighted(s[7], s[6], s[5], s[4], s[3], s[2], s[1], s[0])
  {
    hide FromBigEndian;
    BigEndianFour(s);
    BigEndianStart(s, 4);
    BigEndianStart(s, 5);
    BigEndianStart(s, 6);
    BigEndianStart(s, 7);
    assert s[..8] == s;
  }

  lemma BigEndianFour(s: seq<byte>)
    requires |s| == 8
    ensures FromBigEndian(s[..4]) == Weighted(s[3], s[2], s[1], s[0], 0, 0, 0, 0)
  {
    hide FromBigEndian;
    BigEndianStart(s, 0);
    BigEndianStart(s, 1);
    BigEndianStart(s, 2);
    BigEndianStart(s, 3);
  }

  lemma BigEndianStart(s: seq<byte>, n: nat)
    requires n < |s|
    ensures FromBigEndian(s[..n + 1]) == FromBigEndian(s[..n]) * 256 + s[n]
    ensures FromBigEndian(s[..0]) == 0
  {
    assert s[..n + 1][..n] == s[..n];
  }

  // ---------- Little-endian integers: structs written to disk as they lie in memory ----------

  /** The n low bytes of u, lowest first. */
  function LittleEndian(u: nat, n: nat): (s: seq<byte>)
    ensures |s| == n
  {
    if n == 0 then [] else [u % 256] + LittleEndian(u / 256, n - 1)
  }

  function FromLittleEndian(s: seq<byte>): nat {
    if s == [] then 0 else s[0] + 256 * FromLittleEndian(s[1..])
  }

  lemma {:induction false} LittleEndianUndo(u: nat, n: nat)
    requires u < Pow256(n)
    ensures FromLittleEndian(LittleEndian(u, n)) == u
  {
    if n > 0 {
      LittleEndianUndo(u / 256, n - 1);
      assert LittleEndian(u, n)[1..] == LittleEndian(u / 256, n - 1);
    }
  }

  lemma {:induction false} FromLittleEndianUndo(s: seq<byte>)
    ensures LittleEndian(FromLittleEndian(s), |s|) == s
  {
    if s != [] {
      var rest := FromLittleEndian(s[1..]);
      FromLittleEndianUndo(s[1..]);
      LowestByte(s[0], rest);
      assert s == [s[0]] + LittleEndian(rest, |s| - 1);
    }
  }

  lemma LowestByte(b: byte, rest: nat)
    ensures (b + 256 * rest) % 256 == b && (b + 256 * rest) / 256 == rest
  {
  }

  /** Different bytes are different numbers. */
  lemma SameLittleEndian(s: seq<byte>, t: seq<byte>)
    requires |s| == |t| && FromLittleEndian(s) == FromLittleEndian(t)
    ensures s == t
  {
    FromLittleEndianUndo(s);
    FromLittleEndianUndo(t);
  }

  lemma LittleEndianUndo8(u: U64)
    ensures FromLittleEndian(LittleEndian(u, 8)) == u
  {
    Pow256Of8();
    LittleEndianUndo(u, 8);
  }

  /** Eight bytes, the lowest first. */
  lemma EightFromLittleEndian(s: seq<byte>)
    requires |s| == 8
    ensures FromLittleEndian(s) == Weighted(s[0], s[1], s[2], s[3], s[4], s[5], s[6], s[7])
  {
    hide FromLittleEndian;
    LittleEndianEnd(s, 7);
    LittleEndianEnd(s, 6);
    LittleEndianEnd(s, 5);
    LittleEndianEnd(s, 4);
    LittleEndianEnd(s, 3);
    LittleEndianEnd(s, 2);
    LittleEndianEnd(s, 1);
    LittleEndianEnd(s, 0);
    assert s[0..] == s && s[8..] == [];
  }

  lemma LittleEndianEnd(s: seq<byte>, n: nat)
    requires n < |s|
    ensures FromLittleEndian(s[n..]) == s[n] + 256 * FromLittleEndian(s[n + 1..])
    ensures FromLittleEndian(s[|s|..]) == 0
  {
    assert s[n..][1..] == s[n + 1..];
  }

  // ---------- Files ----------

  /** The file contents after writing `bytes` at `offset`; a gap reads as zeros. */
  function WriteAt(data: seq<byte>, offset: nat, bytes: seq<byte>): (r: seq<byte>)
    ensures |r| == if offset + |bytes| > |data| then offset + |bytes| else |data|
    ensures r[offset..offset + |bytes|] == bytes
    ensures forall i :: 0 <= i < |data| && (i < offset || i >= offset + |bytes|) ==> r[i] == data[i]
  {
    var front: seq<byte> := if offset >= |data| then data + seq(offset - |data|, i => 0) else data[..offset];
    var back: seq<byte> := if offset + |bytes| >= |data| then [] else data[offset + |bytes|..];
    assert |front| == offset && (front + bytes + back)[offset..offset + |bytes|] == bytes;
    front + bytes + back
  }

  /** A slice that a write does not reach. */
  lemma WriteElsewhere(data: seq<byte>, offset: nat, bytes: seq<byte>, lo: nat, hi: nat)
    requires lo <= hi <= |data|
    requires hi <= offset || offset + |bytes| <= lo
    ensures WriteAt(data, offset, bytes)[lo..hi] == data[lo..hi]
  {
    var r := WriteAt(data, offset, bytes);
    assert forall i :: lo <= i < hi ==> r[i] == data[i];
  }

  /** An open file: reads and writes happen at `pos` and advance it; the field `offset` is set by seeking only. */
  class File {
    var data: seq<byte>
    var pos: nat
    var offset: nat

    constructor ()
      ensures data == [] && pos == 0 && offset == 0
    {
      data, pos, offset := [], 0, 0;
    }

    method SeekTo(seekOffset: nat)
      modifies this`pos, this`offset
      ensures pos == seekOffset && offset == seekOffset
    {
      pos, offset := seekOffset, seekOffset;
    }

    method Write(bytes: seq<byte>)
      modifies this`data, this`pos
      ensures data == WriteAt(old(data), old(pos), bytes) && pos == old(pos) + |bytes|
    {
      data := WriteAt(data, pos, bytes);
      pos := pos + |bytes|;
    }

    /** Reads up to n bytes; fewer only at the end of the file. */
    method Read(n: nat) returns (bytes: seq<byte>)
      modifies this`pos
      ensures pos == old(pos) + |bytes|
      ensures bytes == if pos <= |data| then data[old(pos)..pos] else []
      ensures |bytes| <= n && (|bytes| == n || pos >= |data|)
    {
      if pos >= |data| {
        bytes := [];
      } else {
        var end := if pos + n <= |data| then pos + n else |data|;
        bytes := data[pos..end];
        pos := end;
      }
    }
  }
}
