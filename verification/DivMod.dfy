/** Division with remainder by products. */
module DivMod {

  /** Quotient and remainder are the only way to write a number so. */
  lemma Unique(v: int, d: nat, q: int, r: nat)
    requires r < d && v == q * d + r
    ensures v / d == q && v % d == r
  {
    var q', r' := v / d, v % d;
    assert v == q' * d + r';
    if q < q' {
      Gap(q, q', d);
    } else if q' < q {
      Gap(q', q, d);
    }
  }

  lemma Gap(a: int, b: int, d: nat)
    requires a < b
    ensures a * d + d <= b * d
  {
    assert b * d == a * d + d + (b - a - 1) * d;
  }

  lemma Regroup(d: nat, e: nat, q: nat, m: nat)
    ensures (q * e + m) * d == q * (d * e) + d * m
  {
    assert (q * e + m) * d == (q * e) * d + m * d;
    assert (q * e) * d == q * (e * d);
  }

  /** Two digits to base `d` and `e` make one to base `d * e`. */
  lemma Digits(v: nat, d: nat, e: nat, h: nat, l: nat, q: nat, m: nat)
    requires l < d && m < e && v == h * d + l && h == q * e + m
    ensures d * m + l < d * e && v == q * (d * e) + (d * m + l)
  {
    Regroup(d, e, q, m);
    Gap(m, e, d);
  }

  lemma Nested(v: nat, d: nat, e: nat, de: nat)
    requires d > 0 && e > 0 && de == d * e
    ensures v / de == v / d / e
  {
    var h, l := v / d, v % d;
    var q, m := h / e, h % e;
    Digits(v, d, e, h, l, q, m);
    Unique(v, de, q, d * m + l);
  }
}
