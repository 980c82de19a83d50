/** Decimal numbers and their canonical text (hubread/record.py, hub/derive.py).

    A number travels as decimal text.  `DecimalStr` is the one canonical spelling two collectors
    must agree on; `CreateDecimal` is the stricter reading a derived expression uses; the scale-8
    functions are the 64-bit integers a snapshot column stores.  A `Num` is a decimal up to
    numeric equality: its coefficient carries no trailing zero. */
module Decimals {
  import opened Wrappers

  datatype Dec = Dec(coef: int, exp: int)

  predicate Canonical(d: Dec) {
    if d.coef == 0 then d.exp == 0 else d.coef % 10 != 0
  }

  type Num = d: Dec | Canonical(d) witness Dec(0, 0)

  // ---------------------------------------------------------------- powers of ten

  function Pow10(n: nat): (p: nat)
    ensures p > 0
  {
    if n == 0 then 1 else 10 * Pow10(n - 1)
  }

  lemma {:induction false} Pow10Add(m: nat, n: nat)
    ensures Pow10(m + n) == Pow10(m) * Pow10(n)
  {
    if n == 0 {
    } else {
      Pow10Add(m, n - 1);
      MulShuffle(Pow10(m), 10, Pow10(n - 1));
    }
  }

  lemma MulShuffle(a: int, b: int, c: int)
    ensures a * (b * c) == b * (a * c) == (a * b) * c
  {}

  lemma {:induction false} Pow10Monotone(m: nat, n: nat)
    requires m <= n
    ensures Pow10(m) <= Pow10(n)
  {
    if m < n { Pow10Monotone(m, n - 1); }
  }

  // ---------------------------------------------------------------- numeric value

  function Abs(i: int): nat { if i < 0 then -i else i }

  /** Drop trailing zeros: the canonical representative of a numeric value. */
  function Strip(coef: int, exp: int): (d: Num)
    decreases Abs(coef)
  {
    if coef == 0 then Dec(0, 0)
    else if coef % 10 == 0 then Strip(coef / 10, exp + 1)
    else Dec(coef, exp)
  }

  ghost predicate SameValue(a: Dec, b: Dec) {
    if a.exp <= b.exp then a.coef == b.coef * Pow10(b.exp - a.exp)
    else a.coef * Pow10(a.exp - b.exp) == b.coef
  }

  predicate Less(a: Dec, b: Dec) {
    if a.exp <= b.exp then a.coef < b.coef * Pow10(b.exp - a.exp)
    else a.coef * Pow10(a.exp - b.exp) < b.coef
  }

  lemma {:induction false} StripShift(coef: int, exp: int, k: nat)
    ensures Strip(coef * Pow10(k), exp) == Strip(coef, exp + k)
    decreases k
  {
    if k == 0 || coef == 0 {
    } else {
      var c := coef * Pow10(k - 1);
      MulShuffle(coef, 10, Pow10(k - 1));
      assert coef * Pow10(k) == 10 * c;
      assert c != 0;
      StripShift(coef, exp + 1, k - 1);
    }
  }

  /** What stripping removed. */
  lemma {:induction false} StripKeepsValue(coef: int, exp: int) returns (k: nat)
    requires coef != 0
    ensures Strip(coef, exp).exp == exp + k
    ensures coef == Strip(coef, exp).coef * Pow10(k)
    decreases Abs(coef)
  {
    if coef % 10 == 0 {
      var j := StripKeepsValue(coef / 10, exp + 1);
      k := j + 1;
      MulShuffle(Strip(coef, exp).coef, 10, Pow10(j));
    } else {
      k := 0;
    }
  }

  lemma StripCanonical(d: Num)
    ensures Strip(d.coef, d.exp) == d
  {}

  /** Two decimals have one canonical form exactly when they are the same number. */
  lemma SameValueIffSameStrip(a: Dec, b: Dec)
    ensures SameValue(a, b) <==> Strip(a.coef, a.exp) == Strip(b.coef, b.exp)
  {
    if a.exp <= b.exp { SameValueAligned(a, b); } else { SameValueAligned(b, a); }
  }

  lemma SameValueAligned(a: Dec, b: Dec)
    requires a.exp <= b.exp
    ensures a.coef == b.coef * Pow10(b.exp - a.exp) <==> Strip(a.coef, a.exp) == Strip(b.coef, b.exp)
  {
    var k := b.exp - a.exp;
    StripShift(b.coef, a.exp, k);
    if Strip(a.coef, a.exp) == Strip(b.coef, b.exp) {
      if a.coef == 0 || b.coef == 0 {
        StripZero(a.coef, a.exp);
        StripZero(b.coef, b.exp);
      } else {
        var s := Strip(a.coef, a.exp);
        var ka := StripKeepsValue(a.coef, a.exp);
        var kb := StripKeepsValue(b.coef, b.exp);
        assert ka == kb + k;
        Pow10Add(kb, k);
        MulShuffle(s.coef, Pow10(kb), Pow10(k));
      }
    }
  }

  lemma {:induction false} StripZero(coef: int, exp: int)
    ensures Strip(coef, exp).coef == 0 <==> coef == 0
    decreases Abs(coef)
  {
    if coef != 0 && coef % 10 == 0 { StripZero(coef / 10, exp + 1); }
  }

  // ---------------------------------------------------------------- digits

  predicate IsDigit(c: char) { '0' <= c <= '9' }

  predicate AllDigits(s: string) { forall i :: 0 <= i < |s| ==> IsDigit(s[i]) }

  function DigitChar(n: nat): (c: char)
    requires n < 10
    ensures IsDigit(c)
  {
    '0' + n as char
  }

  function Digits(n: nat): (s: string)
    ensures s != "" && AllDigits(s)
  {
    if n < 10 then [DigitChar(n)] else Digits(n / 10) + [DigitChar(n % 10)]
  }

  function Val(s: string): nat
    requires AllDigits(s)
  {
    if s == "" then 0 else Val(s[..|s| - 1]) * 10 + (s[|s| - 1] as int - '0' as int)
  }

  function Zeros(n: nat): (s: string)
    ensures |s| == n && AllDigits(s)
  {
    if n == 0 then "" else Zeros(n - 1) + "0"
  }

  lemma {:induction false} ValDigits(n: nat)
    ensures Val(Digits(n)) == n
  {
    if n >= 10 {
      ValDigits(n / 10);
      assert Digits(n)[..|Digits(n)| - 1] == Digits(n / 10);
    } else {
      assert Digits(n)[..0] == "";
    }
  }

  lemma {:induction false} ValTrailingZeros(s: string, k: nat)
    requires AllDigits(s)
    ensures AllDigits(s + Zeros(k)) && Val(s + Zeros(k)) == Val(s) * Pow10(k)
  {
    if k == 0 {
      assert s + Zeros(0) == s;
    } else {
      ValTrailingZeros(s, k - 1);
      assert (s + Zeros(k))[..|s| + k - 1] == s + Zeros(k - 1);
      MulShuffle(Val(s), 10, Pow10(k - 1));
    }
  }

  lemma {:induction false} ValZeros(k: nat)
    ensures Val(Zeros(k)) == 0
  {
    if k == 0 {
    } else {
      ValZeros(k - 1);
      assert Zeros(k)[..k - 1] == Zeros(k - 1);
    }
  }

  lemma {:induction false} ValLeadingZeros(k: nat, s: string)
    requires AllDigits(s)
    ensures AllDigits(Zeros(k) + s) && Val(Zeros(k) + s) == Val(s)
  {
    if s == "" {
      ValZeros(k);
      assert Zeros(k) + s == Zeros(k);
    } else {
      ValLeadingZeros(k, s[..|s| - 1]);
      assert (Zeros(k) + s)[..k + |s| - 1] == Zeros(k) + s[..|s| - 1];
    }
  }

  lemma {:induction false} DigitsBound(n: nat, k: nat)
    requires k >= 1
    ensures |Digits(n)| <= k <==> n < Pow10(k)
  {
    if k == 1 {
      assert Pow10(1) == 10;
    } else if n >= 10 {
      DigitsBound(n / 10, k - 1);
    } else {
      Pow10Monotone(1, k);
    }
  }

  // ---------------------------------------------------------------- rounding

  const PRECISION: nat := 28

  function Rounded(d: Dec, precision: nat): Num {
    var m := Abs(d.coef);
    var k := |Digits(m)|;
    if k <= precision then Strip(d.coef, d.exp)
    else
      var q := HalfEven(m, Pow10(k - precision));
      Strip(if d.coef < 0 then -(q as int) else q, d.exp + k - precision)
  }

  function HalfEven(m: nat, unit: nat): (q: nat)
    requires unit > 0
    ensures q == m / unit || q == m / unit + 1
  {
    var q, r := m / unit, m % unit;
    if 2 * r > unit || (2 * r == unit && q % 2 == 1) then q + 1 else q
  }

  /** The fixed 28-digit, half-even context every number passes through. */
  function Round(d: Dec): Num { Rounded(d, PRECISION) }

  predicate Fits(d: Dec, precision: nat) { |Digits(Abs(d.coef))| <= precision }

  predicate Short(d: Dec) { Fits(d, PRECISION) }

  lemma {:induction false} StripShrinks(coef: int, exp: int)
    ensures Abs(Strip(coef, exp).coef) <= Abs(coef)
    decreases Abs(coef)
  {
    if coef != 0 && coef % 10 == 0 { StripShrinks(coef / 10, exp + 1); }
  }

  lemma StripShort(coef: int, exp: int, k: nat)
    requires k >= 1 && Abs(coef) <= Pow10(k)
    ensures Fits(Strip(coef, exp), k)
  {
    StripShrinks(coef, exp);
    if Abs(coef) == Pow10(k) {
      var c: int := Pow10(k - 1);
      if coef < 0 { c := -c; }
      assert coef == 10 * c && c != 0;
      assert Strip(coef, exp) == Strip(c, exp + 1);
      StripShrinks(c, exp + 1);
    }
    DigitsBound(Abs(Strip(coef, exp).coef), k);
  }

  lemma RoundedFits(d: Dec, precision: nat)
    requires precision >= 1
    ensures Fits(Rounded(d, precision), precision)
  {
    var m := Abs(d.coef);
    var k := |Digits(m)|;
    if k <= precision {
      DigitsBound(m, precision);
      StripShort(d.coef, d.exp, precision);
    } else {
      var unit := Pow10(k - precision);
      DigitsBound(m, k);
      Pow10Add(precision, k - precision);
      QuotientBelow(m, Pow10(precision), unit);
      var q := HalfEven(m, unit);
      StripShort(if d.coef < 0 then -(q as int) else q, d.exp + k - precision, precision);
    }
  }

  /** A rounded number fits the context. */
  lemma RoundShort(d: Dec)
    ensures Short(Round(d))
  {
    RoundedFits(d, PRECISION);
  }

  lemma QuotientBelow(m: nat, p: nat, unit: nat)
    requires unit > 0 && m < p * unit
    ensures m / unit < p
  {
    var q := m / unit;
    assert m == q * unit + m % unit;
    MulMonotone(q, p, unit);
  }

  lemma MulMonotone(a: int, b: int, c: nat)
    ensures a >= b ==> a * c >= b * c
  {
    assert a >= b ==> (a - b) * c >= 0;
  }

  /** Rounding changes no number of at most 28 digits, and rounding twice is rounding once. */
  lemma RoundFixed(d: Num)
    requires Short(d)
    ensures Round(d) == d
  {
    StripCanonical(d);
  }

  lemma RoundIdempotent(d: Dec)
    ensures Round(Round(d)) == Round(d)
  {
    RoundShort(d);
    RoundFixed(Round(d));
  }

  // ---------------------------------------------------------------- text

  function FormatAbs(m: nat, exp: int): string {
    var ds := Digits(m);
    if exp >= 0 then ds + Zeros(exp)
    else if |ds| > -exp then ds[..|ds| + exp] + "." + ds[|ds| + exp..]
    else "0." + Zeros(-exp - |ds|) + ds
  }

  function Format(d: Num): string {
    if d.coef < 0 then "-" + FormatAbs(-d.coef, d.exp) else FormatAbs(d.coef, d.exp)
  }

  function IndexOf(s: string, c: char, d: char): (n: nat)
    ensures n <= |s|
    ensures forall i :: 0 <= i < n ==> s[i] != c && s[i] != d
    ensures n < |s| ==> s[n] == c || s[n] == d
  {
    if s == "" || s[0] == c || s[0] == d then 0 else 1 + IndexOf(s[1..], c, d)
  }

  function ParseMantissa(s: string): Option<Dec> {
    var p := IndexOf(s, '.', '.');
    var whole := s[..p];
    var frac := if p < |s| then s[p + 1..] else "";
    if AllDigits(whole) && AllDigits(frac) && |whole| + |frac| > 0
    then Some(Dec(Val(whole + frac), -|frac|))
    else None
  }

  function ParseExponent(s: string): Option<int> {
    var body := if s != "" && (s[0] == '+' || s[0] == '-') then s[1..] else s;
    if body != "" && AllDigits(body)
    then
      var e: int := Val(body);
      Some(if s[0] == '-' then -e else e)
    else None
  }

  function ParseUnsigned(s: string): Option<Dec> {
    var p := IndexOf(s, 'e', 'E');
    var m :- ParseMantissa(s[..p]);
    if p == |s| then Some(m)
    else
      var e :- ParseExponent(s[p + 1..]);
      Some(Dec(m.coef, m.exp + e))
  }

  /** The decimal grammar without padding: optional sign, digits with an optional point, optional
      exponent. */
  function Parse(s: string): Option<Dec> {
    if s == "" then None
    else if s[0] == '-' then Negate(ParseUnsigned(s[1..]))
    else ParseUnsigned(if s[0] == '+' then s[1..] else s)
  }

  function Negate(d: Option<Dec>): Option<Dec> {
    if d.Some? then Some(Dec(-d.value.coef, d.value.exp)) else None
  }

  predicate IsSpace(c: char) {
    c == ' ' || '\t' <= c <= '\r' || (0x1c as char) <= c <= (0x1f as char)
  }

  function TrimLeft(s: string): string {
    if s != "" && IsSpace(s[0]) then TrimLeft(s[1..]) else s
  }

  function TrimRight(s: string): string {
    if s != "" && IsSpace(s[|s| - 1]) then TrimRight(s[..|s| - 1]) else s
  }

  function DropUnderscores(s: string): string {
    if s == "" then ""
    else if s[0] == '_' then DropUnderscores(s[1..])
    else [s[0]] + DropUnderscores(s[1..])
  }

  /** The lenient reading of the decimal constructor: surrounding space and underscores go. */
  function ParseLenient(s: string): Option<Dec> {
    Parse(DropUnderscores(TrimLeft(TrimRight(s))))
  }

  /** `decimal_str` on text: `None` where it raises. */
  function DecimalStr(s: string): Option<string> {
    var d :- ParseLenient(s);
    Some(Format(Round(d)))
  }

  /** `CTX.create_decimal` on text: `None` where it signals. */
  function CreateDecimal(s: string): Option<Num> {
    var d :- Parse(s);
    Some(Round(d))
  }

  lemma IndexOfAbsent(s: string, c: char, d: char)
    requires forall i :: 0 <= i < |s| ==> s[i] != c && s[i] != d
    ensures IndexOf(s, c, d) == |s|
  {}

  lemma IndexOfAt(a: string, c: char, b: string)
    requires forall i :: 0 <= i < |a| ==> a[i] != c
    ensures IndexOf(a + [c] + b, c, c) == |a|
  {
    var s := a + [c] + b;
    var n := IndexOf(s, c, c);
    assert s[|a|] == c;
    assert forall i :: 0 <= i < |a| ==> s[i] == a[i];
  }

  lemma DigitsAreNotMarks(s: string)
    requires AllDigits(s)
    ensures forall i :: 0 <= i < |s| ==> s[i] != '.' && s[i] != 'e' && s[i] != 'E' && s[i] != '-' && s[i] != '+' && s[i] != '_' && !IsSpace(s[i])
  {}

  /** The text of a number, seen as whole and fractional digits. */
  lemma FormatShape(m: nat, exp: int) returns (whole: string, frac: string)
    ensures AllDigits(whole) && AllDigits(frac) && whole != ""
    ensures FormatAbs(m, exp) == Point(whole, frac)
    ensures Val(whole + frac) == if exp >= 0 then m * Pow10(exp) else m
    ensures -|frac| == if exp >= 0 then 0 else exp
  {
    var ds := Digits(m);
    ValDigits(m);
    if exp >= 0 {
      whole, frac := ds + Zeros(exp), "";
      ValTrailingZeros(ds, exp);
      assert whole + frac == whole;
    } else if |ds| > -exp {
      whole, frac := ds[..|ds| + exp], ds[|ds| + exp..];
      assert whole + frac == ds;
    } else {
      frac := ZeroPadded(m, exp);
      whole := "0";
    }
  }

  lemma ZeroPadded(m: nat, exp: int) returns (frac: string)
    requires exp < 0 && |Digits(m)| <= -exp
    ensures AllDigits(frac) && |frac| == -exp
    ensures AllDigits("0" + frac) && Val("0" + frac) == m
    ensures FormatAbs(m, exp) == Point("0", frac)
  {
    frac := Zeros(-exp - |Digits(m)|) + Digits(m);
    PaddedDigits(m, -exp - |Digits(m)|);
    assert "0." + Zeros(-exp - |Digits(m)|) + Digits(m) == "0" + "." + frac;
  }

  lemma PaddedDigits(m: nat, k: nat)
    ensures var frac := Zeros(k) + Digits(m); AllDigits(frac) && AllDigits("0" + frac) && Val("0" + frac) == m
  {
    ValDigits(m);
    ValLeadingZeros(k, Digits(m));
    LeadingZero(Zeros(k) + Digits(m));
  }

  function Point(whole: string, frac: string): string {
    if frac == "" then whole else whole + "." + frac
  }

  lemma LeadingZero(s: string)
    requires AllDigits(s)
    ensures AllDigits("0" + s) && Val("0" + s) == Val(s)
  {
    ValLeadingZeros(1, s);
    assert Zeros(1) == "0" by { assert Zeros(0) == ""; }
  }

  lemma ParseShape(whole: string, frac: string)
    requires AllDigits(whole) && AllDigits(frac) && whole != ""
    ensures ParseUnsigned(Point(whole, frac)) == Some(Dec(Val(whole + frac), -|frac|))
  {
    DigitsAreNotMarks(whole);
    DigitsAreNotMarks(frac);
    var s := Point(whole, frac);
    IndexOfAbsent(s, 'e', 'E');
    assert s[..|s|] == s;
    if frac == "" {
      IndexOfAbsent(s, '.', '.');
      assert whole + frac == whole;
    } else {
      IndexOfAt(whole, '.', frac);
      assert s == whole + ['.'] + frac;
      assert s[..|whole|] == whole && s[|whole| + 1..] == frac;
    }
  }

  lemma ParseUnsignedFormat(m: nat, exp: int)
    ensures ParseUnsigned(FormatAbs(m, exp)) ==
            Some(if exp >= 0 then Dec(m * Pow10(exp), 0) else Dec(m, exp))
    ensures FormatAbs(m, exp) != "" && IsDigit(FormatAbs(m, exp)[0])
  {
    var whole, frac := FormatShape(m, exp);
    ParseShape(whole, frac);
    assert FormatAbs(m, exp)[0] == whole[0];
  }

  lemma FormatAbsIsClean(m: nat, exp: int)
    ensures forall i :: 0 <= i < |FormatAbs(m, exp)| ==>
              FormatAbs(m, exp)[i] != '_' && !IsSpace(FormatAbs(m, exp)[i])
  {
    var whole, frac := FormatShape(m, exp);
    DigitsAreNotMarks(whole);
    DigitsAreNotMarks(frac);
  }

  /** Canonical text reads back as the number it spells, strictly and leniently alike. */
  lemma ParseFormat(d: Num)
    ensures Parse(Format(d)).Some?
    ensures var p := Parse(Format(d)).value; Strip(p.coef, p.exp) == d
    ensures ParseLenient(Format(d)) == Parse(Format(d))
  {
    FormatIsClean(d);
    CleanIsUntouched(Format(d));
    FormatParses(d);
  }

  lemma FormatParses(d: Num)
    ensures Parse(Format(d)).Some?
    ensures var p := Parse(Format(d)).value; Strip(p.coef, p.exp) == d
  {
    FormatValue(d);
    ParseSign(d);
    ParseUnsignedFormat(Abs(d.coef), d.exp);
  }

  lemma ParseSign(d: Num)
    ensures Parse(Format(d)) ==
            if d.coef < 0 then Negate(ParseUnsigned(FormatAbs(Abs(d.coef), d.exp)))
            else ParseUnsigned(FormatAbs(Abs(d.coef), d.exp))
  {
    var body := FormatAbs(Abs(d.coef), d.exp);
    assert body != "" && IsDigit(body[0]) by { ParseUnsignedFormat(Abs(d.coef), d.exp); }
    SignedText(body);
  }

  lemma SignedText(body: string)
    requires body != "" && IsDigit(body[0])
    ensures Parse(body) == ParseUnsigned(body) && Parse("-" + body) == Negate(ParseUnsigned(body))
  {
    assert ("-" + body)[1..] == body;
  }

  lemma FormatIsClean(d: Num)
    ensures forall i :: 0 <= i < |Format(d)| ==> Format(d)[i] != '_' && !IsSpace(Format(d)[i])
  {
    FormatAbsIsClean(Abs(d.coef), d.exp);
  }

  lemma FormatValue(d: Num)
    ensures d.exp >= 0 ==> Strip(d.coef * Pow10(d.exp), 0) == d
    ensures d.exp >= 0 && d.coef < 0 ==> -((-d.coef) * Pow10(d.exp)) == d.coef * Pow10(d.exp)
    ensures Strip(d.coef, d.exp) == d
  {
    StripCanonical(d);
    if d.exp >= 0 {
      StripShift(d.coef, 0, d.exp);
      NegateProduct(-d.coef, Pow10(d.exp));
    }
  }

  lemma NegateProduct(a: int, b: int)
    ensures -(a * b) == (-a) * b
  {}

  lemma {:induction false} CleanIsUntouched(s: string)
    requires forall i :: 0 <= i < |s| ==> s[i] != '_' && !IsSpace(s[i])
    ensures TrimLeft(s) == s && TrimRight(s) == s && DropUnderscores(s) == s
  {
    if s == "" {
    } else {
      CleanIsUntouched(s[1..]);
      assert s == [s[0]] + s[1..];
    }
  }

  // ---------------------------------------------------------------- laws of canonical text

  /** Canonical text spells one number: different numbers never share it. */
  lemma FormatInjective(a: Num, b: Num)
    ensures Format(a) == Format(b) <==> a == b
  {
    ParseFormat(a);
    ParseFormat(b);
  }

  /** Canonical text is a fixed point of `decimal_str`. */
  lemma DecimalStrIdempotent(s: string)
    requires DecimalStr(s).Some?
    ensures DecimalStr(DecimalStr(s).value) == DecimalStr(s)
    ensures CreateDecimal(DecimalStr(s).value) == Some(Round(ParseLenient(s).value))
  {
    var n := Round(ParseLenient(s).value);
    RoundIdempotent(ParseLenient(s).value);
    ParseFormat(n);
    var p := Parse(Format(n)).value;
    RoundShort(ParseLenient(s).value);
    RoundOfEqual(p, n);
  }

  /** Rounding sees a number's value when that value fits the context, however it is spelled. */
  lemma RoundOfEqual(p: Dec, n: Num)
    requires Strip(p.coef, p.exp) == n && Short(n)
    ensures Round(p) == n
  {
    if |Digits(Abs(p.coef))| > PRECISION {
      DigitsBound(0, PRECISION);
      assert p.coef != 0;
      var z := StripKeepsValue(p.coef, p.exp);
      RoundOfPadded(p, n, z, PRECISION);
    }
  }

  lemma PaddedQuotient(c: nat, z: nat, drop: nat)
    requires drop <= z
    ensures HalfEven(c * Pow10(z), Pow10(drop)) == c * Pow10(z - drop)
  {
    Pow10Add(z - drop, drop);
    MulShuffle(c, Pow10(z - drop), Pow10(drop));
    ExactQuotient(c * Pow10(z - drop), Pow10(drop));
  }

  lemma RoundOfPadded(p: Dec, n: Num, z: nat, precision: nat)
    requires p.coef == n.coef * Pow10(z) && n.exp == p.exp + z && n.coef != 0
    requires Fits(n, precision) && !Fits(p, precision)
    ensures Rounded(p, precision) == n
  {
    var c := Abs(n.coef);
    NegateProduct(c, Pow10(z));
    NegateProduct(n.coef, Pow10(z));
    assert Abs(p.coef) == c * Pow10(z);
    DigitsOfShifted(c, z);
    var drop := |Digits(Abs(p.coef))| - precision;
    assert 0 < drop <= z;
    PaddedQuotient(c, z, drop);
    StripShift(n.coef, p.exp + drop, z - drop);
    NegateProduct(c, Pow10(z - drop));
    StripCanonical(n);
    MulMonotone(c, 1, Pow10(z));
    assert p.coef < 0 <==> n.coef < 0;
  }

  lemma ExactQuotient(q: nat, unit: nat)
    requires unit > 0
    ensures (q * unit) / unit == q && (q * unit) % unit == 0
  {
    var m := q * unit;
    var d := m / unit;
    assert m == unit * d + m % unit;
    QuotientGap(q - d, unit, m % unit);
  }

  lemma QuotientGap(gap: int, unit: nat, r: nat)
    requires unit > 0 && r < unit && gap * unit == r
    ensures gap == 0 && r == 0
  {
    MulMonotone(gap, 1, unit);
    MulMonotone(-1, gap, unit);
  }

  lemma {:induction false} DigitsOfShifted(m: nat, z: nat)
    requires m > 0
    ensures |Digits(m * Pow10(z))| == |Digits(m)| + z
  {
    if z == 0 {
    } else {
      DigitsOfShifted(m, z - 1);
      var n := m * Pow10(z - 1);
      MulShuffle(m, 10, Pow10(z - 1));
      assert m * Pow10(z) == 10 * n && n >= 1;
    }
  }

  /** For numbers of at most 28 digits, one text means one number and one number means one text. */
  lemma DecimalStrIdentifiesEqualValues(s: string, t: string)
    requires ParseLenient(s).Some? && ParseLenient(t).Some?
    requires Short(ParseLenient(s).value) && Short(ParseLenient(t).value)
    ensures DecimalStr(s) == DecimalStr(t) <==> SameValue(ParseLenient(s).value, ParseLenient(t).value)
  {
    var a, b := ParseLenient(s).value, ParseLenient(t).value;
    SameValueIffSameStrip(a, b);
    FormatInjective(Round(a), Round(b));
  }

  // ---------------------------------------------------------------- scale 8

  const SCALE := 8
  const NULL_SENTINEL: int := -0x8000_0000_0000_0000
  const I64_LIMIT: int := 0x8000_0000_0000_0000

  /** The 64-bit integer a snapshot stores for a number; `None` when it needs more than eight
      decimal places or leaves the storable range. */
  function ToScale8(n: Num): Option<int> {
    if n.exp < -SCALE then None
    else
      var v := n.coef * Pow10(n.exp + SCALE);
      if NULL_SENTINEL < v < I64_LIMIT then Some(v) else None
  }

  /** The number a stored integer stands for at a given scale. */
  function FromScaled(raw: int, scale: nat): Num { Round(Dec(raw, -(scale as int))) }

  function FromScale8(raw: int): Num { FromScaled(raw, SCALE) }

  lemma I64Digits(v: int)
    requires -I64_LIMIT <= v <= I64_LIMIT
    ensures |Digits(Abs(v))| <= 19
  {
    assert Pow10(19) == 10_000_000_000_000_000_000 by {
      assert Pow10(1) == 10 && Pow10(2) == 100 && Pow10(3) == 1_000 && Pow10(4) == 10_000;
      Pow10Add(4, 4); Pow10Add(8, 8); Pow10Add(16, 3);
    }
    DigitsBound(Abs(v), 19);
  }

  /** A stored integer decodes to the very number it was made from, and is never the null mark. */
  lemma Scale8Exact(n: Num)
    requires ToScale8(n).Some?
    ensures var v := ToScale8(n).value;
            NULL_SENTINEL < v < I64_LIMIT && FromScale8(v) == n
  {
    var v := ToScale8(n).value;
    I64Digits(v);
    StripShift(n.coef, -SCALE, n.exp + SCALE);
    StripCanonical(n);
  }

  /** Exactly the numbers with an integral in-range scaled value are storable. */
  lemma Scale8Storable(n: Num, v: int)
    ensures ToScale8(n) == Some(v) <==>
            NULL_SENTINEL < v < I64_LIMIT && SameValue(Dec(v, -SCALE), n)
  {
    SameValueIffSameStrip(Dec(v, -SCALE), n);
    StripCanonical(n);
    if n.exp < -SCALE {
      if v != 0 {
        var k := StripKeepsValue(v, -SCALE);
      }
    }
  }
}
