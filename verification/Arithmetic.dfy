/** Rounding, and facts about products and quotients. */
module Arithmetic {
  /** `size + ((align - (size & (align - 1))) & (align - 1))` for the alignments in use. */
  function AlignUp(size: nat, align: nat): (r: nat)
    requires align == 1 || align == 4 || align == 8
    ensures size <= r < size + align && r % align == 0
    ensures r == size <==> size % align == 0
  {
    AlignedAfter(size, align);
    size + (align - size % align) % align
  }

  lemma AlignedAfter(size: nat, align: nat)
    requires align == 1 || align == 4 || align == 8
    ensures var r := size + (align - size % align) % align;
            size <= r < size + align && r % align == 0 && (r == size <==> size % align == 0)
  {
    var m := size % align;
    if align == 8 {
      assert m == 0 || (8 - m) % 8 == 8 - m;
    } else if align == 4 {
      assert m == 0 || (4 - m) % 4 == 4 - m;
    } else {
      assert m == 0;
    }
  }

  lemma MulLe(a: nat, b: nat, c: nat)
    requires a <= b
    ensures a * c <= b * c
  {
  }

  lemma DivIs(u: nat, d: nat)
    requires d > 0
    ensures u / d * d <= u < u / d * d + d
    ensures u < (u / d + 1) * d
  {
    assert u == u / d * d + u % d;
  }

  lemma QuotientIs(u: nat, d: nat, q: nat)
    requires d > 0 && q * d <= u < (q + 1) * d
    ensures u / d == q
  {
    var q' := u / d;
    DivIs(u, d);
    if q' < q {
      MulLe(q' + 1, q, d);
    } else if q < q' {
      MulLe(q + 1, q', d);
    }
  }

  lemma DivDiv(u: nat, p: nat)
    requires p > 0
    ensures u / p / 256 == u / (256 * p)
  {
    var q := u / p;
    DivIs(u, p);
    var a := q / 256;
    MulLe(256 * a, q, p);
    MulLe(q + 1, 256 * a + 256, p);
    assert 256 * a * p == a * (256 * p) && (256 * a + 256) * p == (a + 1) * (256 * p);
    QuotientIs(u, 256 * p, a);
  }

  lemma QuotientNonNegative(u: nat, d: nat)
    requires d > 0
    ensures u / d >= 0
  {
  }
}
