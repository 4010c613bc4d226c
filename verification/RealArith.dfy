/** Products and quotients of reals under names, so that the solver can be kept from looking into
    them, and the few facts that are needed of them. */
module RealArith {
  function Times(x: real, y: real): real {
    x * y
  }

  function Over(x: real, y: real): real
    requires y != 0.0
  {
    x / y
  }

  lemma TimesPos(x: real, y: real)
    requires x > 0.0 && y > 0.0
    ensures Times(x, y) > 0.0
  {
  }

  lemma TimesLe(x: real, a: real, b: real)
    requires x > 0.0
    ensures a <= b <==> Times(x, a) <= Times(x, b)
    ensures Times(x, 1.0) == x
  {
    assert x * (b - a) == x * b - x * a;
  }

  lemma OverIs(x: real, y: real)
    requires y > 0.0
    ensures Times(y, Over(x, y)) == x
    ensures x > 0.0 ==> Over(x, y) > 0.0
    ensures x >= y ==> Over(x, y) >= 1.0
  {
  }

  lemma TimesAssociative(x: real, y: real, z: real)
    ensures Times(Times(x, y), z) == Times(x, Times(y, z))
  {
  }

  lemma TimesCancel(x: real, a: real, b: real)
    requires x > 0.0 && Times(x, a) == Times(x, b)
    ensures a == b
  {
    assert x * (a - b) == 0.0;
  }

  lemma OverUnique(x: real, y: real, q: real)
    requires y > 0.0 && Times(q, y) == x
    ensures Over(x, y) == q
  {
    OverIs(x, y);
    assert Times(y, q) == Times(q, y);
    TimesCancel(y, q, Over(x, y));
  }

  lemma TimesCommutes(x: real, y: real)
    ensures Times(x, y) == Times(y, x)
  {
  }

  lemma SquareNonNegative(x: real)
    ensures Times(x, x) >= 0.0
  {
  }
}
