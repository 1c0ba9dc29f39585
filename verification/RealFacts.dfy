/** Arithmetic on reals: the code's own helpers, and a product with its laws. */
module RealFacts {

  function Clamp(x: real, lo: real, hi: real): real {
    var capped := if x < hi then x else hi;
    if capped > lo then capped else lo
  }

  function Min(x: real, y: real): real { if x < y then x else y }

  function Abs(x: real): real { if x < 0.0 then -x else x }

  /** Python's `round`: to the nearest integer, ties to even. */
  function Round(x: real): int {
    var below := x.Floor;
    var rest := x - below as real;
    if rest < 0.5 || (rest == 0.5 && below % 2 == 0) then below else below + 1
  }

  lemma RoundIsNear(x: real)
    ensures -0.5 <= Round(x) as real - x <= 0.5
  {
  }

  /** The integer nearest to `x`, and of two nearest ones the even one. */
  lemma RoundExactly(x: real, n: int)
    ensures Round(x) == n <==>
            -0.5 < x - n as real < 0.5 || (n % 2 == 0 && (x - n as real == 0.5 || x - n as real == -0.5))
  {
  }

  lemma QuotientMonotone(a: real, b: real, d: real)
    requires a <= b && d > 0.0
    ensures a / d <= b / d
  {
  }

  lemma QuotientPositive(a: real, b: real)
    requires a > 0.0 && b > 0.0
    ensures a / b > 0.0
  {
  }

  /** A product kept as one term: with its definition hidden, the reasoning around it is linear. */
  function Times(a: real, b: real): real { a * b }

  lemma TimesPositive(a: real, b: real)
    ensures a > 0.0 && b > 0.0 ==> Times(a, b) > 0.0
    ensures a >= 0.0 && b >= 0.0 ==> Times(a, b) >= 0.0
  {
  }

  lemma TimesDistributes(k: real, a: real, b: real)
    ensures Times(k, a + b) == Times(k, a) + Times(k, b)
    ensures Times(k, a - b) == Times(k, a) - Times(k, b)
    ensures Times(k, -a) == -Times(k, a)
  {
  }

  lemma TimesCommutes(a: real, b: real)
    ensures Times(a, b) == Times(b, a)
  {
  }

  lemma TimesSplits(a: real, b: real, c: real)
    ensures Times(a + b, c) == Times(a, c) + Times(b, c)
    ensures Times(a - b, c) == Times(a, c) - Times(b, c)
    ensures Times(-a, c) == -Times(a, c)
  {
  }

  lemma TimesAssociates(a: real, b: real, c: real)
    ensures Times(Times(a, b), c) == Times(a, Times(b, c))
  {
  }

  lemma TimesUnits(a: real)
    ensures Times(1.0, a) == a == Times(a, 1.0) && Times(0.0, a) == 0.0 == Times(a, 0.0)
  {
  }

  lemma TimesMonotone(a: real, b: real, c: real)
    requires a <= b && c >= 0.0
    ensures Times(a, c) <= Times(b, c)
  {
    hide Times;
    TimesPositive(b - a, c);
    TimesSplits(b, a, c);
  }

  /** A fraction of a non-negative amount is between nothing and all of it. */
  lemma TimesFraction(a: real, b: real)
    requires a >= 0.0 && 0.0 <= b <= 1.0
    ensures 0.0 <= Times(a, b) <= a
  {
    hide Times;
    TimesPositive(a, b);
    TimesMonotone(b, 1.0, a);
    TimesCommutes(a, b);
    TimesUnits(a);
  }

  lemma TimesOneMore(n: nat, c: real)
    ensures Times((n + 1) as real, c) == Times(n as real, c) + c
  {
    hide Times;
    TimesSplits(n as real, 1.0, c);
    TimesUnits(c);
  }

  lemma TimesCancels(k: real, a: real, b: real)
    requires k > 0.0 && Times(k, a) <= Times(k, b)
    ensures a <= b
  {
    hide Times;
    TimesPositive(k, a - b);
    TimesDistributes(k, a, b);
  }

  lemma TimesQuotient(k: real, a: real)
    requires k != 0.0
    ensures Times(k, a / k) == a
  {
  }

  lemma TimesComplement(q: real, r: real)
    ensures Times(1.0 - q, r) == r - Times(q, r)
    ensures Times(r, 1.0 - q) == r - Times(r, q)
  {
    hide Times;
    TimesSplits(1.0, q, r);
    TimesDistributes(r, 1.0, q);
    TimesUnits(r);
  }
}
