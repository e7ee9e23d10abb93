/** The hex codec of `src/Core/util.cpp`. */
module HexText {
  import opened Bytes
  import opened Wrappers

  function HexChar(d: nat): char
    requires d < 16
  {
    if d < 10 then '0' + d as char else 'A' + (d - 10) as char
  }

  function ToLower(c: char): char {
    if 'A' <= c <= 'Z' then c - 'A' + 'a' else c
  }

  /** The value of a digit after `tolower`. */
  function HexValue(c: char): (v: Option<nat>)
    ensures v.Some? ==> v.value < 16
  {
    var l := ToLower(c);
    if '0' <= l <= '9' then Some((l - '0') as nat)
    else if 'a' <= l <= 'f' then Some((l - 'a') as nat + 10)
    else None
  }

  function Encoded(bytes: seq<byte>): (s: string)
    ensures |s| == 2 * |bytes|
  {
    if bytes == [] then ""
    else Encoded(bytes[..|bytes| - 1]) + [HexChar(bytes[|bytes| - 1] / 16), HexChar(bytes[|bytes| - 1] % 16)]
  }

  /** The first n pairs of a text. */
  function Decoded(hex: string, n: nat): (r: Option<seq<byte>>)
    requires 2 * n <= |hex|
    ensures r.Some? ==> |r.value| == n
  {
    if n == 0 then Some([])
    else
      var front, high, low := Decoded(hex, n - 1), HexValue(hex[2 * n - 2]), HexValue(hex[2 * n - 1]);
      if front.None? || high.None? || low.None? then None else Some(front.value + [16 * high.value + low.value])
  }

  lemma DigitUndo(d: nat)
    requires d < 16
    ensures HexValue(HexChar(d)) == Some(d)
  {
  }

  /** Decoding undoes encoding. */
  lemma {:induction false} DecodedUndo(bytes: seq<byte>, rest: string)
    ensures Decoded(Encoded(bytes) + rest, |bytes|) == Some(bytes)
  {
    if bytes != [] {
      var n, b := |bytes|, bytes[|bytes| - 1];
      var tail := [HexChar(b / 16), HexChar(b % 16)];
      DigitUndo(b / 16);
      DigitUndo(b % 16);
      DecodedUndo(bytes[..n - 1], tail + rest);
      assert Encoded(bytes) + rest == Encoded(bytes[..n - 1]) + (tail + rest);
      assert bytes == bytes[..n - 1] + [b];
    }
  }

  function Upper(c: char): char {
    if 'a' <= c <= 'z' then c - 'a' + 'A' else c
  }

  function UpperText(s: string): string {
    seq(|s|, i requires 0 <= i < |s| => Upper(s[i]))
  }

  lemma CharUndo(c: char)
    requires HexValue(c).Some?
    ensures HexChar(HexValue(c).value) == Upper(c)
  {
  }

  lemma PairUndo(h: nat, l: nat)
    requires h < 16 && l < 16
    ensures (16 * h + l) / 16 == h && (16 * h + l) % 16 == l
  {
  }

  lemma UpperPair(hex: string, n: nat)
    requires 0 < 2 * n <= |hex|
    ensures UpperText(hex[..2 * n]) == UpperText(hex[..2 * n - 2]) + [Upper(hex[2 * n - 2]), Upper(hex[2 * n - 1])]
  {
  }

  /** Encoding undoes decoding, up to the case of the letters. */
  lemma {:induction false} EncodedUndo(hex: string, n: nat)
    requires 2 * n <= |hex| && Decoded(hex, n).Some?
    ensures Encoded(Decoded(hex, n).value) == UpperText(hex[..2 * n])
  {
    if n > 0 {
      hide HexValue, HexChar, Upper, UpperText;
      EncodedUndo(hex, n - 1);
      var c, d := hex[2 * n - 2], hex[2 * n - 1];
      CharUndo(c);
      CharUndo(d);
      PairUndo(HexValue(c).value, HexValue(d).value);
      var bytes := Decoded(hex, n).value;
      assert bytes[..n - 1] == Decoded(hex, n - 1).value;
      UpperPair(hex, n);
    }
  }

  lemma HexValueIff(c: char)
    ensures HexValue(c).Some? <==> c in "0123456789abcdefABCDEF"
  {
    var digits := "0123456789abcdefABCDEF";
    if '0' <= c <= '9' {
      assert digits[c as int - '0' as int] == c;
    } else if 'a' <= c <= 'f' {
      assert digits[c as int - 'a' as int + 10] == c;
    } else if 'A' <= c <= 'F' {
      assert digits[c as int - 'A' as int + 16] == c;
    }
  }

  /** Decoding fails exactly when some character of a full pair is not a hex digit. */
  lemma DecodedFailsIff(hex: string, n: nat)
    requires 2 * n <= |hex|
    ensures Decoded(hex, n).None? <==> exists k :: 0 <= k < 2 * n && hex[k] !in "0123456789abcdefABCDEF"
  {
    hide Decoded, HexValue;
    DecodedFails(hex, n);
    forall k | 0 <= k < 2 * n
      ensures HexValue(hex[k]).None? <==> hex[k] !in "0123456789abcdefABCDEF"
    {
      HexValueIff(hex[k]);
    }
  }

  lemma {:induction false} DecodedFails(hex: string, n: nat)
    requires 2 * n <= |hex|
    ensures Decoded(hex, n).None? <==> exists k :: 0 <= k < 2 * n && HexValue(hex[k]).None?
  {
    if n > 0 {
      DecodedFails(hex, n - 1);
      if Decoded(hex, n).None? {
        if Decoded(hex, n - 1).Some? {
          assert HexValue(hex[2 * n - 2]).None? || HexValue(hex[2 * n - 1]).None?;
        } else {
          var k :| 0 <= k < 2 * n - 2 && HexValue(hex[k]).None?;
          assert 0 <= k < 2 * n;
        }
      }
    }
  }

  method ToHex(bytes: seq<byte>) returns (s: string)
    ensures s == Encoded(bytes)
  {
    s := "";
    for i := 0 to |bytes|
      invariant s == Encoded(bytes[..i])
    {
      assert bytes[..i + 1][..i] == bytes[..i];
      s := s + [HexChar(bytes[i] / 16)];
      s := s + [HexChar(bytes[i] % 16)];
    }
    assert bytes[..|bytes|] == bytes;
  }

  /** `from_hex_string`: a last single character is not looked at. */
  method FromHex(hex: string) returns (r: Option<seq<byte>>)
    ensures r == Decoded(hex, |hex| / 2)
  {
    hide HexValue;
    var n: nat := |hex| / 2;
    var buffer := new byte[n];
    var i := 0;
    ghost var k := 0;
    while i < |hex| - 1
      invariant i == 2 * k && k <= n
      invariant Decoded(hex, k) == Some(buffer[..k])
    {
      var high, low := HexValue(hex[i]), HexValue(hex[i + 1]);
      if high.None? || low.None? {
        DecodedStops(hex, k + 1, n);
        return None;
      }
      ghost var done := buffer[..k];
      buffer[i / 2] := 16 * high.value + low.value;
      assert buffer[..k + 1] == done + [16 * high.value + low.value];
      i, k := i + 2, k + 1;
    }
    assert k == n && buffer[..] == buffer[..n];
    r := Some(buffer[..]);
  }

  lemma {:induction false} DecodedStops(hex: string, k: nat, n: nat)
    requires k <= n && 2 * n <= |hex| && Decoded(hex, k).None?
    ensures Decoded(hex, n).None?
  {
    if k < n {
      DecodedStops(hex, k, n - 1);
    }
  }

  /** The characters of byte i. */
  lemma {:induction false} EncodedAt(bytes: seq<byte>, i: nat)
    requires i < |bytes|
    ensures Encoded(bytes)[2 * i] == "0123456789ABCDEF"[bytes[i] / 16]
    ensures Encoded(bytes)[2 * i + 1] == "0123456789ABCDEF"[bytes[i] % 16]
  {
    if i < |bytes| - 1 {
      EncodedAt(bytes[..|bytes| - 1], i);
    } else {
      HexCharIs(bytes[i] / 16);
      HexCharIs(bytes[i] % 16);
    }
  }

  lemma HexCharIs(d: nat)
    requires d < 16
    ensures HexChar(d) == "0123456789ABCDEF"[d]
  {
  }
}
