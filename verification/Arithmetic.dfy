// Small facts about products and quotients.
module Arithmetic {
  lemma TimesMonotone(x: int, y: int, n: int)
    requires x <= y && n >= 0
    ensures x * n <= y * n
  {
  }

  lemma DivisionBound(m: int, n: int, span: int)
    requires n > 0 && m * n <= span
    ensures m <= span / n
  {
    var q := span / n;
    assert span < (q + 1) * n;
    if q + 1 <= m {
      TimesMonotone(q + 1, m, n);
    }
  }
}
