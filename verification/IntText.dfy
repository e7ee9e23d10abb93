/** Printing and parsing 64-bit integers: `to_string(S64)` and `parse_int64` of `src/Core/ok.hpp`. */
module IntText {
  import opened Arithmetic
  import opened Bytes
  import opened Wrappers

  function Digit(d: nat): char
    requires d < 10
  {
    '0' + d as char
  }

  predicate IsDigit(c: char) {
    '0' <= c <= '9'
  }

  function DigitValue(c: char): (d: nat)
    requires IsDigit(c)
    ensures d < 10
  {
    (c - '0') as nat
  }

  predicate AllDigits(s: string) {
    forall i :: 0 <= i < |s| ==> IsDigit(s[i])
  }

  function Pow10(n: nat): (p: nat)
    ensures p > 0
  {
    if n == 0 then 1 else 10 * Pow10(n - 1)
  }

  /** The number that a string of digits spells. */
  function ValueOf(s: string): nat
    requires AllDigits(s)
  {
    if s == "" then 0 else 10 * ValueOf(s[..|s| - 1]) + DigitValue(s[|s| - 1])
  }

  function Decimal(n: nat): (s: string)
    ensures s != "" && AllDigits(s)
  {
    if n < 10 then [Digit(n)] else Decimal(n / 10) + [Digit(n % 10)]
  }

  function Printed(i: int): string {
    if i < 0 then "-" + Decimal(-i) else Decimal(i)
  }

  lemma {:induction false} DecimalUndo(n: nat)
    ensures ValueOf(Decimal(n)) == n
  {
    if n >= 10 {
      DecimalUndo(n / 10);
      assert Decimal(n)[..|Decimal(n)| - 1] == Decimal(n / 10);
    } else {
      assert ValueOf("") == 0 && Decimal(n)[..0] == "";
    }
  }

  /** Digit k of a number, from the back. */
  lemma {:induction false} DecimalAt(n: nat, k: nat)
    requires k < |Decimal(n)|
    ensures Decimal(n)[|Decimal(n)| - 1 - k] as int == 48 + n / Pow10(k) % 10
  {
    if n >= 10 && k > 0 {
      DecimalAt(n / 10, k - 1);
      DivTwice(n, Pow10(k - 1));
    } else {
      assert Pow10(0) == 1;
    }
  }

  lemma DivTwice(n: nat, p: nat)
    requires p > 0
    ensures n / 10 / p == n / (10 * p)
  {
    var q := n / 10;
    var a := q / p;
    DivIs(n, 10);
    DivIs(q, p);
    assert a * (10 * p) == 10 * (a * p) && (a + 1) * (10 * p) == 10 * (a * p + p);
    QuotientIs(n, 10 * p, a);
  }

  lemma MulTen(d: nat, p: nat)
    ensures 10 * (d * p) == d * (10 * p)
  {
  }

  /** The value by its first digit: the parser adds digits from the back. */
  lemma {:induction false} ValueFromFront(s: string)
    requires AllDigits(s) && s != ""
    ensures ValueOf(s) == DigitValue(s[0]) * Pow10(|s| - 1) + ValueOf(s[1..])
  {
    if |s| > 1 {
      var front, back := s[..|s| - 1], s[1..];
      ValueFromFront(front);
      assert front[1..] == back[..|back| - 1];
      MulTen(DigitValue(s[0]), Pow10(|s| - 2));
      assert ValueOf(back) == 10 * ValueOf(front[1..]) + DigitValue(s[|s| - 1]);
    } else {
      assert s[..0] == "" && s[1..] == "";
    }
  }

  lemma {:induction false} ValueBelow(s: string)
    requires AllDigits(s)
    ensures ValueOf(s) < Pow10(|s|)
  {
    if s != "" {
      ValueBelow(s[..|s| - 1]);
    }
  }

  lemma {:induction false} DecimalLength(n: nat, k: nat)
    requires k > 0
    ensures |Decimal(n)| <= k <==> n < Pow10(k)
  {
    if k > 1 && n >= 10 {
      DecimalLength(n / 10, k - 1);
    } else if k == 1 {
      assert Pow10(1) == 10 * Pow10(0);
      assert n >= 10 ==> |Decimal(n / 10)| >= 1;
    } else {
      PowAtLeast10(k);
    }
  }

  lemma {:induction false} PowAtLeast10(k: nat)
    requires k > 0
    ensures Pow10(k) >= 10
  {
    if k > 1 {
      PowAtLeast10(k - 1);
    }
  }

  lemma Powers()
    ensures Pow10(9) == 1_000_000_000 && Pow10(10) == 10_000_000_000
    ensures Pow10(18) == 1_000_000_000_000_000_000 && Pow10(19) == 10_000_000_000_000_000_000
  {
    assert Pow10(3) == 1000;
    assert Pow10(6) == 1_000_000;
    assert Pow10(9) == 1_000_000_000;
    assert Pow10(12) == 1_000_000_000_000;
    assert Pow10(15) == 1_000_000_000_000_000;
    assert Pow10(18) == 1_000_000_000_000_000_000;
  }

  /** Twenty characters hold every 64-bit integer... */
  lemma PrintedLength(i: S64)
    ensures |Printed(i)| <= 20
  {
    Powers();
    var n: nat := if i < 0 then -(i as int) else i;
    DecimalLength(n, 19);
  }

  /** ...and the ten of the buffer as written, with the zero behind them, hold it exactly in this range. */
  lemma BufferHoldsIff(i: S64)
    ensures |Printed(i)| <= 10 <==> -999_999_999 <= i <= 9_999_999_999
  {
    Powers();
    var n: nat := if i < 0 then -(i as int) else i;
    DecimalLength(n, if i < 0 then 9 else 10);
  }

  /** `to_string(S64)`: counts the digits, then fills them in from the back. */
  method ToText(i: S64, buffer: array<char>) returns (count: nat)
    requires i > -0x8000_0000_0000_0000 // the code negates negative numbers
    requires buffer.Length >= 21
    modifies buffer
    ensures count <= 20 && buffer[..count] == Printed(i) && buffer[count] == 0 as char
  {
    PrintedLength(i);
    var value: nat := if i < 0 then -i else i;
    var idx := 0;
    if i < 0 {
      buffer[0] := '-';
      idx := 1;
    }
    var digits := CountDigits(value);
    count := idx + digits;
    FillDigits(value, buffer, idx, count);
    buffer[count] := 0 as char;
  }

  method CountDigits(value: nat) returns (n: nat)
    ensures n == |Decimal(value)|
  {
    n := 1;
    var rest: nat := value / 10;
    while rest != 0
      invariant |Decimal(value)| == n + if rest == 0 then 0 else |Decimal(rest)|
      decreases rest
    {
      n := n + 1;
      rest := rest / 10;
    }
  }

  /** Writes the digits into the places from `start` up to `end`, last digit first. */
  method FillDigits(n: nat, buffer: array<char>, start: nat, end: nat)
    requires start + |Decimal(n)| == end <= buffer.Length
    modifies buffer
    ensures buffer[..end] == old(buffer[..start]) + Decimal(n)
  {
    var value, idx := n, end;
    while idx == end || value != 0
      invariant start <= idx <= end && buffer[..start] == old(buffer[..start])
      invariant buffer[idx..end] == Decimal(n)[idx - start..]
      invariant idx == end ==> value == n
      invariant idx < end ==> if value == 0 then idx == start else Decimal(value) == Decimal(n)[..idx - start]
      decreases idx
    {
      ghost var done := buffer[idx..end];
      idx := idx - 1;
      buffer[idx] := Digit(value % 10);
      assert buffer[idx..end] == [Digit(value % 10)] + done;
      value := value / 10;
    }
  }

  // ---------- Parsing ----------

  /** The digits of a text, behind a sign if there is one. */
  function Parsed(s: string): Option<S64> {
    if s == "" || !AllDigits(s[1..]) then None
    else if IsDigit(s[0]) then Some(Wrapped(ValueOf(s)))
    else if s[0] == '-' then Some(Wrapped(-(ValueOf(s[1..]) as int)))
    else None
  }

  /** A number as it comes out of 64-bit arithmetic. */
  function Wrapped(n: int): S64 {
    ToS64(n % TWO_64)
  }

  /** Parsing undoes printing, for every integer whose negative exists. */
  lemma ParsedUndo(i: S64)
    requires i > -0x8000_0000_0000_0000
    ensures Parsed(Printed(i)) == Some(i)
  {
    hide Decimal, ValueOf, Wrapped;
    var n: nat := if i < 0 then -(i as int) else i;
    DecimalUndo(n);
    WrappedIs(i);
    var s, digits := Printed(i), Decimal(n);
    assert i < 0 ==> s[1..] == digits;
    assert AllDigits(s[1..]);
  }

  lemma WrappedIs(i: S64)
    ensures Wrapped(i) == i
  {
  }

  /** A text is read exactly when it is a digit or a minus sign with nothing but digits behind it. */
  lemma ParsedIff(s: string)
    ensures Parsed(s).Some? <==>
            && s != "" && (48 <= s[0] as int <= 57 || s[0] == '-')
            && forall i :: 0 < i < |s| ==> 48 <= s[i] as int <= 57
  {
    hide ValueOf, Wrapped;
    if s != "" {
      assert forall i :: 0 < i < |s| ==> s[i] == s[1..][i - 1];
    }
  }

  lemma {:induction false} LeadingZeros(zeros: string, digits: string)
    requires AllDigits(digits) && forall i :: 0 <= i < |zeros| ==> zeros[i] == '0'
    ensures AllDigits(zeros + digits) && ValueOf(zeros + digits) == ValueOf(digits)
    decreases |zeros|
  {
    if zeros == "" {
      assert zeros + digits == digits;
    } else {
      var s := zeros + digits;
      assert s[1..] == zeros[1..] + digits;
      LeadingZeros(zeros[1..], digits);
      assert DigitValue(s[0]) == 0;
      ValueFromFront(s);
    }
  }

  /** Zeros in front change nothing, and what does not fit into 64 bits wraps around. */
  lemma ParsedIs(zeros: string, n: nat)
    requires forall i :: 0 <= i < |zeros| ==> zeros[i] == '0'
    ensures var plus, minus := Parsed(zeros + Decimal(n)), Parsed("-" + (zeros + Decimal(n)));
            && plus.Some? && (plus.value - n) % 0x1_0000_0000_0000_0000 == 0
            && minus.Some? && (minus.value + n) % 0x1_0000_0000_0000_0000 == 0
  {
    hide Decimal, ValueOf, Wrapped;
    var s := zeros + Decimal(n);
    LeadingZeros(zeros, Decimal(n));
    DecimalUndo(n);
    assert ("-" + s)[1..] == s;
    WrapsTo(n);
    WrapsTo(-(n as int));
  }

  lemma WrapsTo(n: int)
    ensures (Wrapped(n) - n) % 0x1_0000_0000_0000_0000 == 0
  {
    assert n == n / TWO_64 * TWO_64 + n % TWO_64;
    var k := (Wrapped(n) - n % TWO_64) / TWO_64 - n / TWO_64;
    assert Wrapped(n) - n == k * TWO_64;
  }

  /** No sum or coefficient overflows on the way: every tail of the digits stays below 2^63. */
  lemma NothingWraps(i: S64, k: nat)
    requires i > -0x8000_0000_0000_0000
    requires var n: nat := if i < 0 then -i else i; k <= |Decimal(n)|
    ensures var digits := Decimal(if i < 0 then -i else i);
            ValueOf(digits[k..]) < TWO_63 && Pow10(|digits|) < TWO_64
  {
    var n: nat := if i < 0 then -i else i;
    DecimalUndo(n);
    TailBelow(Decimal(n), k);
    Powers();
    DecimalLength(n, 19);
    PowMonotonic(|Decimal(n)|, 19);
  }

  lemma {:induction false} TailBelow(s: string, k: nat)
    requires AllDigits(s) && k <= |s|
    ensures ValueOf(s[k..]) <= ValueOf(s)
  {
    hide ValueOf, DigitValue;
    if k > 0 {
      TailBelow(s, k - 1);
      var t := s[k - 1..];
      ValueFromFront(t);
      NotNegative(DigitValue(t[0]), Pow10(|t| - 1));
      assert t[1..] == s[k..];
    } else {
      assert s[0..] == s;
    }
  }

  lemma NotNegative(a: nat, b: nat)
    ensures a * b >= 0
  {
  }

  lemma {:induction false} PowMonotonic(a: nat, b: nat)
    requires a <= b
    ensures Pow10(a) <= Pow10(b)
  {
    if a < b {
      PowMonotonic(a, b - 1);
    }
  }

  /** `parse_int64`: all arithmetic is modulo 2^64. */
  method ParseInt64(s: string) returns (r: Option<S64>)
    ensures r == Parsed(s)
  {
    if s == "" {
      return None;
    }
    hide ValueOf, Pow10, Wrapped;
    var result: U64, coef: U64 := 0, 1;
    var i := |s| - 1;
    assert s[|s|..] == "";
    NoDigits();
    while i > 0
      invariant 0 <= i < |s| && AllDigits(s[i + 1..])
      invariant result == ValueOf(s[i + 1..]) % TWO_64 && coef == Pow10(|s| - 1 - i) % TWO_64
    {
      if !IsDigit(s[i]) {
        assert s[1..][i - 1] == s[i];
        return None;
      }
      TailStep(s, i, result, coef);
      result := (result + DigitValue(s[i]) * coef % TWO_64) % TWO_64;
      coef := coef * 10 % TWO_64;
      i := i - 1;
    }
    if IsDigit(s[0]) {
      assert s[0..] == s;
      TailStep(s, 0, result, coef);
      result := (result + DigitValue(s[0]) * coef % TWO_64) % TWO_64;
      WrappedAs(ValueOf(s), result);
    } else if s[0] == '-' {
      NegatedMod(ValueOf(s[1..]), result);
      result := (TWO_64 - result) % TWO_64;
      WrappedAs(-(ValueOf(s[1..]) as int), result);
    } else {
      return None;
    }
    r := Some(ToS64(result));
  }

  lemma NoDigits()
    ensures ValueOf("") == 0 && Pow10(0) == 1
  {
  }

  lemma WrappedAs(n: int, u: U64)
    requires u == n % TWO_64
    ensures Wrapped(n) == ToS64(u)
  {
  }

  lemma NegatedMod(v: nat, u: U64)
    requires u == v % TWO_64
    ensures (TWO_64 - u) % TWO_64 == (-(v as int)) % TWO_64
  {
    var q := v / TWO_64;
    assert -(v as int) == (-q - 1) * TWO_64 + (TWO_64 - u);
  }

  lemma TailStep(s: string, i: nat, result: U64, coef: U64)
    requires i < |s| && IsDigit(s[i]) && AllDigits(s[i + 1..])
    requires result == ValueOf(s[i + 1..]) % TWO_64 && coef == Pow10(|s| - 1 - i) % TWO_64
    ensures AllDigits(s[i..])
    ensures (result + DigitValue(s[i]) * coef % TWO_64) % TWO_64 == ValueOf(s[i..]) % TWO_64
    ensures coef * 10 % TWO_64 == Pow10(|s| - i) % TWO_64
  {
    hide ValueOf, Pow10, DigitValue;
    assert s[i..][1..] == s[i + 1..] && AllDigits(s[i..]) && s[i..][0] == s[i];
    ValueFromFront(s[i..]);
    PowNext(|s| - 1 - i);
    var d, p, v := DigitValue(s[i]), Pow10(|s| - 1 - i), ValueOf(s[i + 1..]);
    ModMul(d, p);
    ModMul(10, p);
    ModAdd(v, d * p);
  }

  lemma PowNext(n: nat)
    ensures Pow10(n + 1) == 10 * Pow10(n)
  {
  }

  lemma ModAdd(a: nat, b: nat)
    ensures (a % TWO_64 + b % TWO_64) % TWO_64 == (a + b) % TWO_64
  {
  }

  lemma ModMul(d: nat, p: nat)
    ensures d * (p % TWO_64) % TWO_64 == d * p % TWO_64
  {
    var q, r := p / TWO_64, p % TWO_64;
    assert p == q * TWO_64 + r;
    Distribute(d, q, r);
    ModMultiple(d * q, d * r);
  }

  lemma Distribute(d: nat, q: nat, r: nat)
    ensures d * (q * TWO_64 + r) == (d * q) * TWO_64 + d * r
  {
  }

  lemma ModMultiple(m: nat, x: nat)
    ensures (m * TWO_64 + x) % TWO_64 == x % TWO_64
  {
  }
}
