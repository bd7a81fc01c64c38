/** Integer arithmetic as C++ performs it on `int`, over unbounded integers.

    C++ `/` truncates its quotient toward zero, whereas Dafny's `/` is
    Euclidean; every division of the rasteriser goes through `TruncDiv`.
    The facts about quotients are proved on quotients passed in as plain
    integers (the `...Quotient...` lemmas) and then stated for `TruncDiv`.
 */
module Arith {

  function Abs(a: int): nat {
    if a < 0 then -a else a
  }

  function Min(a: int, b: int): int {
    if a <= b then a else b
  }

  function Max(a: int, b: int): int {
    if a <= b then b else a
  }

  /** `q` is the C++ quotient of `a` by `b`: the remainder `a - q * b` is
      smaller than the divisor and has the sign of `a` (or is zero). */
  predicate IsTruncQuotient(a: int, b: int, q: int) {
    && b != 0
    && Abs(a - q * b) < Abs(b)
    && (0 <= a ==> 0 <= a - q * b)
    && (a <= 0 ==> a - q * b <= 0)
  }

  /** Euclidean division of a natural number by a positive divisor: the
      remainder is natural and smaller than the divisor. */
  function NaturalDiv(a: int, b: int): (q: int)
    requires 0 <= a && 0 < b
    ensures 0 <= a - q * b < b
  {
    assert a == (a / b) * b + a % b;
    a / b
  }

  /** Truncated division by a positive divisor: the quotient of `|a|`, with
      the sign of `a`. */
  function PositiveDiv(a: int, b: int): (q: int)
    requires 0 < b
    ensures IsTruncQuotient(a, b, q)
  {
    if a < 0 then
      var q' := NaturalDiv(-a, b);
      NegatedQuotient(-a, b, q');
      -q'
    else
      NaturalDiv(a, b)
  }

  /** `a / b` in C++: the quotient rounded toward zero. */
  function TruncDiv(a: int, b: int): (q: int)
    requires b != 0
    ensures IsTruncQuotient(a, b, q)
  {
    if b < 0 then
      var q' := PositiveDiv(a, -b);
      NegatedDivisor(a, b, q');
      -q'
    else
      PositiveDiv(a, b)
  }

  /** Negating dividend and quotient negates the remainder. */
  lemma NegatedQuotient(a: int, b: int, q: int)
    ensures -a - (-q) * b == -(a - q * b)
  {
  }

  /** Negating divisor and quotient keeps the remainder. */
  lemma NegatedDivisor(a: int, b: int, q: int)
    ensures a - (-q) * b == a - q * (-b)
  {
  }

  /** Negating dividend and divisor negates the remainder. */
  lemma NegatedOperands(a: int, b: int, q: int)
    ensures -a - q * (-b) == -(a - q * b)
  {
  }

  /** Multiplying by a natural number of at least one does not shrink a
      natural number. */
  lemma ScaleUp(k: nat, n: nat)
    requires 1 <= k
    ensures n <= k * n
  {
    assert k * n == (k - 1) * n + n;
  }

  /** A non-zero multiple of `b` is at least as large as `b`. */
  lemma MultipleAtLeastDivisor(k: int, b: int)
    requires k != 0
    ensures Abs(b) <= Abs(k * b)
  {
    var kk: int, bb: int := Abs(k), Abs(b);
    ScaleUp(kk, bb);
    if k < 0 && b < 0 {
      assert k * b == kk * bb;
    } else if k < 0 {
      assert k * b == -(kk * bb);
    } else if b < 0 {
      assert k * b == -(kk * bb);
    } else {
      assert k * b == kk * bb;
    }
  }

  /** Two remainders of `a` by `b` differ by a multiple of `b`. */
  lemma RemainderDifference(a: int, b: int, q: int, t: int)
    ensures (a - q * b) - (a - t * b) == (t - q) * b
  {
  }

  /** A dividend has only one truncated quotient. */
  lemma QuotientUnique(a: int, b: int, q: int, t: int)
    requires IsTruncQuotient(a, b, q) && IsTruncQuotient(a, b, t)
    ensures q == t
  {
    RemainderDifference(a, b, q, t);
    if t != q {
      MultipleAtLeastDivisor(t - q, b);
    }
  }

  /** The remainder conditions determine the quotient: any `q` meeting them
      is `TruncDiv(a, b)`. */
  lemma TruncDivUnique(a: int, b: int, q: int)
    requires IsTruncQuotient(a, b, q)
    ensures q == TruncDiv(a, b)
  {
    QuotientUnique(a, b, q, TruncDiv(a, b));
  }

  /** On a non-negative dividend and positive divisor truncation and
      Euclidean division agree. */
  lemma TruncDivOfNatural(a: int, b: int)
    requires 0 <= a && 0 < b
    ensures TruncDiv(a, b) == a / b
  {
    TruncDivUnique(a, b, NaturalDiv(a, b));
  }

  /** Negating both operands leaves the truncated quotient unchanged. */
  lemma TruncDivNegateBoth(a: int, b: int)
    requires b != 0
    ensures TruncDiv(-a, -b) == TruncDiv(a, b)
  {
    var q := TruncDiv(a, b);
    NegatedOperands(a, b, q);
    TruncDivUnique(-a, -b, q);
  }

  /** Truncation is symmetric about zero: `(-a) / b == -(a / b)`. */
  lemma TruncDivNegateDividend(a: int, b: int)
    requires b != 0
    ensures TruncDiv(-a, b) == -TruncDiv(a, b)
  {
    var q := TruncDiv(a, b);
    NegatedQuotient(a, b, q);
    TruncDivUnique(-a, b, -q);
  }

  /** An exact multiple divides back to its factor. */
  lemma TruncDivExact(k: int, b: int)
    requires b != 0
    ensures TruncDiv(k * b, b) == k
  {
    TruncDivUnique(k * b, b, k);
  }

  lemma Distribute(q: int, n: int, b: int)
    ensures (q + n) * b == q * b + n * b
  {
  }

  /** Between two quotients that differ, a positive divisor's multiples
      differ by at least the divisor. */
  lemma ProductStep(q: int, q': int, b: int)
    requires q' < q && 0 < b
    ensures q' * b + b <= q * b
  {
    ScaleUp(q - q', b);
    assert (q - q') * b == q * b - q' * b;
  }

  /** For a positive divisor, truncated quotients are monotone in the
      dividend. */
  lemma QuotientMonotone(a: int, a': int, b: int, q: int, q': int)
    requires a <= a' && 0 < b
    requires IsTruncQuotient(a, b, q) && IsTruncQuotient(a', b, q')
    ensures q <= q'
  {
    if q' < q {
      ProductStep(q, q', b);
      if a < 0 {
        if 1 <= q {
          ProductStep(q, 0, b);
        }
        if q' <= -1 {
          ProductStep(0, q', b);
        }
      }
    }
  }

  lemma TruncDivMonotone(a: int, a': int, b: int)
    requires a <= a' && 0 < b
    ensures TruncDiv(a, b) <= TruncDiv(a', b)
  {
    QuotientMonotone(a, a', b, TruncDiv(a, b), TruncDiv(a', b));
  }

  /** Adding `n` multiples of a positive divisor to the dividend raises its
      truncated quotient by at most `n`. */
  lemma QuotientShiftAtMost(a: int, n: nat, b: int, q: int, q': int)
    requires 0 < b
    requires IsTruncQuotient(a, b, q) && IsTruncQuotient(a + n * b, b, q')
    ensures q <= q' <= q + n
  {
    QuotientMonotone(a, a + n * b, b, q, q');
    if q + n < q' {
      Distribute(q, n, b);
      ProductStep(q', q + n, b);
    }
  }

  /** Adding `n` multiples of a positive divisor raises the truncated quotient
      by at most `n`: truncation is not shift-invariant across zero, but it
      never overshoots. */
  lemma TruncDivShiftAtMost(a: int, n: nat, b: int)
    requires 0 < b
    ensures TruncDiv(a, b) <= TruncDiv(a + n * b, b) <= TruncDiv(a, b) + n
  {
    QuotientShiftAtMost(a, n, b, TruncDiv(a, b), TruncDiv(a + n * b, b));
  }

  /** Products of a fixed factor keep the order of the other factor's
      range `0 <= v <= b`. */
  lemma ScaledRange(s: int, v: int, b: int)
    requires 0 <= v <= b
    ensures 0 <= s ==> 0 <= s * v <= s * b
    ensures s < 0 ==> s * b <= s * v <= 0
  {
    assert s * b - s * v == s * (b - v);
    if s < 0 {
      assert s * v == -((-s) * v);
      assert s * b - s * v == -((-s) * (b - v));
    }
  }

  /** Moving the dividend up by `s * v`, with `s` non-negative and `v`
      between zero and a positive divisor `b`, raises the truncated quotient
      by at most `s`. */
  lemma TruncDivSpanUp(n: int, s: nat, v: int, b: int)
    requires 0 < b && 0 <= v <= b
    ensures 0 <= TruncDiv(n + s * v, b) - TruncDiv(n, b) <= s
  {
    ScaledRange(s, v, b);
    TruncDivMonotone(n, n + s * v, b);
    TruncDivMonotone(n + s * v, n + s * b, b);
    TruncDivShiftAtMost(n, s, b);
  }

  /** `-n + (-s) * v` is `-(n + s * v)`. */
  lemma NegatedSum(n: int, s: int, v: int)
    ensures -n + (-s) * v == -(n + s * v)
  {
  }

  /** Moving the dividend by `s * v`, with `v` between zero and a positive
      divisor `b`, moves the truncated quotient by at most `s`, and in the
      direction of `s`. */
  lemma TruncDivSpan(n: int, s: int, v: int, b: int)
    requires 0 < b && 0 <= v <= b
    ensures Min(0, s) <= TruncDiv(n + s * v, b) - TruncDiv(n, b) <= Max(0, s)
  {
    if 0 <= s {
      TruncDivSpanUp(n, s, v, b);
    } else {
      TruncDivSpanUp(-n, -s, v, b);
      NegatedSum(n, s, v);
      TruncDivNegateDividend(n, b);
      TruncDivNegateDividend(n + s * v, b);
    }
  }
}
