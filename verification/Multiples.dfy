/** Multiples of a page, part or chunk size. */
module Multiples {

  lemma MulLe(a: int, b: int, max: int)
    requires 0 < max && a <= b
    ensures a * max <= b * max
  {
    assert 0 <= (b - a) * max;
    assert b * max == a * max + (b - a) * max;
  }

  lemma MulMono(a: int, b: int, max: int)
    requires 0 < max
    ensures a < b <==> a * max < b * max
    ensures a < b ==> (a + 1) * max <= b * max
    ensures (a + 1) * max == a * max + max
  {
    assert (a + 1) * max == a * max + max;
    if a < b { MulLe(a + 1, b, max); } else { MulLe(b, a, max); }
  }

  lemma CellIndex(x: int, c: int, max: int)
    requires 0 < max
    ensures c * max <= x < (c + 1) * max ==> x / max == c
    ensures x < c * max ==> x / max < c
  {
    var q := x / max;
    assert q * max <= x < (q + 1) * max;
    MulMono(q, c, max);
    MulMono(c, q, max);
    MulMono(c, q + 1, max);
    MulMono(q, c + 1, max);
  }

  lemma SmallMultiple(d: int, ps: int)
    requires 0 < ps && -ps < d * ps < ps
    ensures d == 0
  {
    assert d >= 1 ==> d * ps >= ps;
    assert d <= -1 ==> d * ps <= -ps;
  }

  /** Quotient and remainder are the only way to write an offset as a multiple and a rest. */
  lemma DivMod(ps: int, off: int, index: int, pos: int)
    requires 0 < ps && 0 <= off && 0 <= pos < ps
    ensures off == index * ps + pos <==> off / ps == index && off % ps == pos
  {
    var q, r := off / ps, off % ps;
    assert off == q * ps + r;
    if off == index * ps + pos {
      assert (q - index) * ps == pos - r;
      SmallMultiple(q - index, ps);
    }
  }
}
