/** The real number a decimal stands for, and what the decimal operations do to it. */
module Reals {
  import opened Decimals

  // ---------------------------------------------------------------- the number a decimal stands for

  function Worth(d: Dec): real
    decreases Abs(d.exp)
  {
    if d.exp == 0 then d.coef as real
    else if d.exp > 0 then 10.0 * Worth(Dec(d.coef, d.exp - 1))
    else Worth(Dec(d.coef, d.exp + 1)) / 10.0
  }

  /** A zero more in the coefficient is one more in the exponent, and ten times as much. */
  lemma {:induction false} WorthShift(coef: int, exp: int)
    ensures Worth(Dec(10 * coef, exp)) == Worth(Dec(coef, exp + 1)) == 10.0 * Worth(Dec(coef, exp))
    decreases Abs(exp)
  {
    if exp > 0 {
      WorthShift(coef, exp - 1);
    } else if exp < 0 {
      WorthShift(coef, exp + 1);
    }
  }

  lemma {:induction false} StripWorth(coef: int, exp: int)
    ensures Worth(Strip(coef, exp)) == Worth(Dec(coef, exp))
    decreases Abs(coef)
  {
    if coef == 0 {
      NothingWorth(exp);
    } else if coef % 10 == 0 {
      StripWorth(coef / 10, exp + 1);
      WorthShift(coef / 10, exp);
    } else {
    }
  }

  lemma {:induction false} NothingWorth(exp: int)
    ensures Worth(Dec(0, exp)) == 0.0
    decreases Abs(exp)
  {
    if exp > 0 {
      NothingWorth(exp - 1);
    } else if exp < 0 {
      NothingWorth(exp + 1);
    }
  }

  lemma {:induction false} WorthAligned(coef: int, exp: int, k: nat)
    ensures Worth(Dec(coef * Pow10(k), exp)) == Worth(Dec(coef, exp + k))
    decreases k
  {
    if k == 0 {
    } else {
      WorthAligned(coef, exp, k - 1);
      WorthShift(coef * Pow10(k - 1), exp);
      WorthShift(coef, exp + k - 1);
      MulShuffle(coef, 10, Pow10(k - 1));
    }
  }

  lemma {:induction false} WorthOrder(a: int, b: int, exp: int)
    ensures a < b <==> Worth(Dec(a, exp)) < Worth(Dec(b, exp))
    decreases Abs(exp)
  {
    if exp > 0 {
      WorthOrder(a, b, exp - 1);
    } else if exp < 0 {
      WorthOrder(a, b, exp + 1);
    }
  }

  /** Comparing decimals is comparing the numbers they stand for. */
  lemma LessIsLess(a: Dec, b: Dec)
    ensures Less(a, b) <==> Worth(a) < Worth(b)
  {
    if a.exp <= b.exp {
      WorthAligned(b.coef, a.exp, b.exp - a.exp);
      WorthOrder(a.coef, b.coef * Pow10(b.exp - a.exp), a.exp);
    } else {
      WorthAligned(a.coef, b.exp, a.exp - b.exp);
      WorthOrder(a.coef * Pow10(a.exp - b.exp), b.coef, b.exp);
    }
  }

  lemma SameWorth(a: Dec, b: Dec)
    ensures SameValue(a, b) <==> Worth(a) == Worth(b)
  {
    LessIsLess(a, b);
    LessIsLess(b, a);
  }

  /** Two canonical decimals that stand for one number are one. */
  lemma WorthIsInjective(a: Num, b: Num)
    requires Worth(a) == Worth(b)
    ensures a == b
  {
    LessIsLess(a, b);
    LessIsLess(b, a);
    SameValueIffSameStrip(a, b);
    StripCanonical(a);
    StripCanonical(b);
  }

  // ---------------------------------------------------------------- rounding

  lemma Off(x: int, c: int, u: int, exp: int)
    requires -u <= 2 * (x - c) <= u
    ensures -Worth(Dec(u, exp)) <= 2.0 * (Worth(Dec(x, exp)) - Worth(Dec(c, exp))) <= Worth(Dec(u, exp))
  {
    var d := x - c;
    WorthAdds(d, c, exp);
    WorthAdds(d, d, exp);
    WorthAdds(u, -u, exp);
    NothingWorth(exp);
    WorthOrder(u, 2 * d, exp);
    WorthOrder(2 * d, -u, exp);
  }

  lemma HalfEvenIsNear(m: nat, unit: nat)
    requires unit > 0
    ensures -(unit as int) <= 2 * (HalfEven(m, unit) * unit - m) <= unit
    ensures 2 * (HalfEven(m, unit) * unit - m) == unit || 2 * (HalfEven(m, unit) * unit - m) == -(unit as int) ==>
              HalfEven(m, unit) % 2 == 0
  {
    assert m == (m / unit) * unit + m % unit;
    assert (m / unit + 1) * unit == (m / unit) * unit + unit;
  }

  /** A number of `k` digits, more than 28, is rounded by at most half a unit of its 28th digit. */
  lemma RoundIsNear(d: Dec)
    ensures var k := |Digits(Abs(d.coef))|;
            if k <= 28 then Worth(Round(d)) == Worth(d)
            else var half := Worth(Dec(Pow10(k - 28), d.exp)); -half <= 2.0 * (Worth(Round(d)) - Worth(d)) <= half
  {
    var k := |Digits(Abs(d.coef))|;
    if k <= 28 {
      StripWorth(d.coef, d.exp);
    } else {
      LongIsNear(d.coef, d.exp, k - 28);
    }
  }

  lemma LongIsNear(coef: int, exp: int, drop: nat)
    requires drop > 0 && |Digits(Abs(coef))| == drop + PRECISION
    ensures var half := Worth(Dec(Pow10(drop), exp));
            -half <= 2.0 * (Worth(Round(Dec(coef, exp))) - Worth(Dec(coef, exp))) <= half
  {
    var unit := Pow10(drop);
    var q: int := HalfEven(Abs(coef), unit);
    var x := if coef < 0 then -q else q;
    HalfEvenIsNear(Abs(coef), unit);
    StripWorth(x, exp + drop);
    WorthAligned(x, exp, drop);
    NegateProduct(q, unit);
    Off(x * unit, coef, unit, exp);
  }

  // ---------------------------------------------------------------- adding up

  function Sum(xs: seq<real>): real { if xs == [] then 0.0 else Sum(xs[..|xs| - 1]) + xs[|xs| - 1] }

  lemma SumSnoc(xs: seq<real>, x: real)
    ensures Sum(xs + [x]) == Sum(xs) + x
  {
    assert (xs + [x])[..|xs|] == xs;
  }

  lemma {:induction false} WorthAdds(a: int, b: int, exp: int)
    ensures Worth(Dec(a + b, exp)) == Worth(Dec(a, exp)) + Worth(Dec(b, exp))
    decreases Abs(exp)
  {
    if exp == 0 {
    } else if exp > 0 {
      WorthAdds(a, b, exp - 1);
    } else {
      WorthAdds(a, b, exp + 1);
    }
  }

  lemma {:induction false} WorthScales(coef: int, n: int, exp: int)
    ensures Worth(Dec(coef * n, exp)) == n as real * Worth(Dec(coef, exp))
    decreases Abs(exp)
  {
    if exp == 0 {
    } else if exp > 0 {
      WorthScales(coef, n, exp - 1);
      Tenfold(n as real, Worth(Dec(coef, exp - 1)));
    } else {
      WorthScales(coef, n, exp + 1);
      Tenfold(n as real, Worth(Dec(coef, exp)));
    }
  }

  lemma Tenfold(n: real, x: real)
    ensures n * (10.0 * x) == 10.0 * (n * x)
  {}
}
