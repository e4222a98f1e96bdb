/**
 * The numbers of the traces filter: `minDurationMs` and `maxDurationMs` are
 * read from where-clause text with `Number(...)` and written back with
 * `String(...)`. A finite number is a decimal fraction here, kept in one
 * canonical representation so that equal values are equal terms.
 */
module FilterNumbers {
  import opened Wrappers
  import opened JsText

  /** The number `mantissa / 10^exp`. */
  datatype Dec = Dec(mantissa: int, exp: nat)

  /** No trailing zero after the decimal point. */
  predicate Canonical(d: Dec) {
    d.exp == 0 || d.mantissa % 10 != 0
  }

  type Decimal = d: Dec | Canonical(d) witness Dec(0, 0)

  /** A JavaScript number: a finite decimal or one of the non-finite values. */
  datatype JsNumber = Finite(value: Decimal) | NaN | Infinity | NegInfinity

  function Pow10(n: nat): (r: nat)
    ensures r >= 1
  {
    if n == 0 then 1 else 10 * Pow10(n - 1)
  }

  lemma {:induction false} Pow10Add(a: nat, b: nat)
    ensures Pow10(a + b) == Pow10(a) * Pow10(b)
  {
    if a > 0 {
      Pow10Add(a - 1, b);
      assert Pow10(a + b) == 10 * Pow10(a - 1 + b);
    }
  }

  function Value(d: Dec): real {
    d.mantissa as real / Pow10(d.exp) as real
  }

  lemma CrossMultiply(m1: int, p1: nat, m2: int, p2: nat)
    requires p1 >= 1 && p2 >= 1 && m1 as real / p1 as real == m2 as real / p2 as real
    ensures m1 * p2 == m2 * p1
  {
    assert m1 as real == m2 as real / p2 as real * p1 as real;
    assert (m1 * p2) as real == (m2 * p1) as real;
  }

  /** Canonical decimals of equal value are the same decimal. */
  lemma CanonicalIsUnique(a: Decimal, b: Decimal)
    requires Value(a) == Value(b)
    ensures a == b
  {
    CrossMultiply(a.mantissa, Pow10(a.exp), b.mantissa, Pow10(b.exp));
    if a.exp < b.exp {
      ExpGap(a, b);
      assert false;
    } else if b.exp < a.exp {
      ExpGap(b, a);
      assert false;
    } else {
      MulCancel(a.mantissa, b.mantissa, Pow10(a.exp));
    }
  }

  /** If `a` has fewer fraction digits than `b` but the same value, `b`'s mantissa ends in a zero. */
  lemma ExpGap(a: Dec, b: Dec)
    requires a.exp < b.exp && a.mantissa * Pow10(b.exp) == b.mantissa * Pow10(a.exp)
    ensures b.mantissa % 10 == 0
  {
    var k: nat := b.exp - a.exp;
    var p := Pow10(a.exp);
    var q := Pow10(k - 1);
    Pow10Add(a.exp, k);
    assert Pow10(k) == 10 * q;
    var t := a.mantissa * q;
    assert a.mantissa * Pow10(b.exp) == (10 * t) * p by {
      assert Pow10(b.exp) == p * (10 * q);
    }
    MulCancel(b.mantissa, 10 * t, p);
  }

  lemma MulCancel(x: int, y: int, p: int)
    requires p > 0 && x * p == y * p
    ensures x == y
  {
    assert (x - y) * p == 0;
  }

  // ---------------------------------------------------------------------
  // Digit strings
  // ---------------------------------------------------------------------

  lemma AllDigitsAppend(a: string, b: string)
    requires AllDigits(a) && AllDigits(b)
    ensures AllDigits(a + b)
  {
  }

  function DigitChar(n: nat): char
    requires n < 10
  {
    ('0' as int + n) as char
  }

  /** The value of a string of decimal digits, most significant first. */
  function DigitsValue(s: string): nat
    requires AllDigits(s)
  {
    if s == [] then 0 else DigitsValue(s[..|s| - 1]) * 10 + (s[|s| - 1] as int - '0' as int)
  }

  /** The shortest decimal digits of `n`. */
  function NatDigits(n: nat): (r: string)
    ensures |r| >= 1 && AllDigits(r)
    ensures |r| > 1 ==> r[0] != '0'
  {
    if n < 10 then [DigitChar(n)] else NatDigits(n / 10) + [DigitChar(n % 10)]
  }

  lemma {:induction false} NatDigitsValue(n: nat)
    ensures DigitsValue(NatDigits(n)) == n
  {
    if n >= 10 {
      NatDigitsValue(n / 10);
      var s := NatDigits(n);
      assert s[..|s| - 1] == NatDigits(n / 10);
    }
  }

  function Zeros(k: nat): (r: string)
    ensures |r| == k && AllDigits(r)
  {
    if k == 0 then [] else Zeros(k - 1) + ['0']
  }

  /** Leading zeros do not change the value of a digit string. */
  lemma {:induction false} LeadingZerosValue(k: nat, ds: string)
    requires AllDigits(ds)
    ensures AllDigits(Zeros(k) + ds)
    ensures DigitsValue(Zeros(k) + ds) == DigitsValue(ds)
  {
    if ds == [] {
      assert Zeros(k) + ds == Zeros(k);
      ZerosValue(k);
    } else {
      var s := Zeros(k) + ds;
      assert s[..|s| - 1] == Zeros(k) + ds[..|ds| - 1];
      LeadingZerosValue(k, ds[..|ds| - 1]);
    }
  }

  lemma {:induction false} ZerosValue(k: nat)
    ensures DigitsValue(Zeros(k)) == 0
  {
    if k > 0 {
      assert Zeros(k)[..k - 1] == Zeros(k - 1);
      ZerosValue(k - 1);
    }
  }

  // ---------------------------------------------------------------------
  // String(n) and Number(s)
  // ---------------------------------------------------------------------

  function Abs(m: int): nat { if m < 0 then -m else m }

  /**
   * The digits of `|mantissa|` with the point placed `exp` digits from the
   * right, padded with zeros after `0.` when the fraction is longer than
   * the digits.
   */
  function PlaceDigits(ds: string, e: nat): string {
    if e == 0 then ds
    else if |ds| > e then ds[..|ds| - e] + "." + ds[|ds| - e..]
    else "0" + "." + (Zeros(e - |ds|) + ds)
  }

  /** `String(n)` in plain decimal notation: sign, integer digits, and the fraction digits when there are any. */
  function NumberToString(d: Decimal): string {
    (if d.mantissa < 0 then "-" else "") + PlaceDigits(NatDigits(Abs(d.mantissa)), d.exp)
  }

  /** Strip trailing fraction zeros from `m / 10^e`. */
  function Canon(m: nat, e: nat): (r: Decimal)
    ensures r.mantissa >= 0
    ensures (m % 10 != 0 || e == 0) ==> r == Dec(m, e)
  {
    if e > 0 && m % 10 == 0 then Canon(m / 10, e - 1) else Dec(m, e)
  }

  function Negate(d: Decimal): Decimal {
    Dec(-d.mantissa, d.exp)
  }

  /** An unsigned decimal literal: digits, optionally a point and more digits, at least one digit overall. */
  function ParseUnsigned(t: string): Option<Decimal> {
    var k := IndexOf(t, '.');
    if k == -1 then
      if |t| > 0 && AllDigits(t) then Some(Canon(DigitsValue(t), 0)) else None
    else
      var whole, frac := t[..k], t[k + 1..];
      if |whole| + |frac| > 0 && AllDigits(whole) && AllDigits(frac) then
        AllDigitsAppend(whole, frac);
        Some(Canon(DigitsValue(whole + frac), |frac|))
      else None
  }

  /** `Number(t)` restricted to decimal literals with an optional sign; `None` stands for NaN. */
  function ParseDecimal(t: string): Option<Decimal> {
    if |t| > 0 && t[0] == '-' then
      match ParseUnsigned(t[1..])
      case Some(d) => Some(Negate(d))
      case None => None
    else if |t| > 0 && t[0] == '+' then ParseUnsigned(t[1..])
    else ParseUnsigned(t)
  }

  /** `parseNumber`: blank text is no number; otherwise `Number` of the trimmed text, kept only when finite. */
  function ParseNumber(value: string): Option<Decimal> {
    if Trim(value) == [] then None else ParseDecimal(Trim(value))
  }

  /** Stripping trailing zeros keeps the value. */
  lemma {:induction false} CanonValue(m: nat, e: nat)
    ensures Value(Canon(m, e)) == m as real / Pow10(e) as real
    decreases e
  {
    if e > 0 && m % 10 == 0 {
      CanonValue(m / 10, e - 1);
      assert Pow10(e) == 10 * Pow10(e - 1);
      assert m == (m / 10) * 10;
      DivScale(m / 10, Pow10(e - 1));
    }
  }

  lemma DivScale(q: int, p: nat)
    requires p >= 1
    ensures (q * 10) as real / (10 * p) as real == q as real / p as real
  {
  }

  /** The text `String` prints is read back by `Number` as the same number. */
  lemma NumberRoundTrip(d: Decimal)
    ensures ParseNumber(NumberToString(d)) == Some(d)
    ensures ParseDecimal(NumberToString(d)) == Some(d)
  {
    var s := NumberToString(d);
    ParseDecimalRoundTrip(d);
    NumberTextIsTrimmed(d);
    TrimmedIsFixed(s);
    assert Trim(s) == s;
  }

  lemma ParseDecimalRoundTrip(d: Decimal)
    ensures ParseDecimal(NumberToString(d)) == Some(d)
  {
    var mag := Abs(d.mantissa);
    var body := PlaceDigits(NatDigits(mag), d.exp);
    var s := NumberToString(d);
    ParseUnsignedBody(mag, d.exp);
    if d.mantissa < 0 {
      assert s == "-" + body;
      assert s[1..] == body;
      assert Negate(Dec(mag, d.exp)) == d;
    } else {
      assert s == body;
    }
  }

  lemma NoPointInDigits(s: string)
    requires AllDigits(s)
    ensures '.' !in s && IndexOf(s, '.') == -1
  {
    assert forall i :: 0 <= i < |s| ==> s[i] != '.';
  }

  lemma ParseUnsignedBody(mag: nat, e: nat)
    requires e == 0 || mag % 10 != 0
    ensures var body := PlaceDigits(NatDigits(mag), e);
            ParseUnsigned(body) == Some(Dec(mag, e)) && body[0] != '-' && body[0] != '+'
  {
    var ds := NatDigits(mag);
    NatDigitsValue(mag);
    if e == 0 {
      ParseWholeDigits(ds, mag);
    } else if |ds| > e {
      assert ds[..|ds| - e] + ds[|ds| - e..] == ds;
      ParsePointed(ds[..|ds| - e], ds[|ds| - e..], mag, e);
    } else {
      ParseLeadingZero(ds, mag, e);
    }
  }

  lemma ParseWholeDigits(ds: string, mag: nat)
    requires |ds| > 0 && AllDigits(ds) && DigitsValue(ds) == mag
    ensures ParseUnsigned(ds) == Some(Dec(mag, 0)) && ds[0] != '-' && ds[0] != '+'
  {
    NoPointInDigits(ds);
    assert IsDigit(ds[0]);
  }

  /** `0.` then the zero-padded digits. */
  lemma ParseLeadingZero(ds: string, mag: nat, e: nat)
    requires |ds| > 0 && AllDigits(ds) && DigitsValue(ds) == mag && mag % 10 != 0
    requires e > 0 && |ds| <= e
    ensures var body := "0" + "." + (Zeros(e - |ds|) + ds);
            ParseUnsigned(body) == Some(Dec(mag, e)) && body[0] != '-' && body[0] != '+'
  {
    var frac := Zeros(e - |ds|) + ds;
    LeadingZerosValue(e - |ds|, ds);
    LeadingZerosValue(1, frac);
    assert Zeros(1) == "0";
    ParsePointed("0", frac, mag, e);
  }

  /** `whole.frac` with a non-zero last digit parses as `whole ++ frac` over `10^|frac|`. */
  lemma ParsePointed(whole: string, frac: string, mag: nat, e: nat)
    requires |whole| > 0 && AllDigits(whole) && AllDigits(frac) && |frac| == e && e > 0
    requires AllDigits(whole + frac) && DigitsValue(whole + frac) == mag && mag % 10 != 0
    ensures ParseUnsigned(whole + "." + frac) == Some(Dec(mag, e))
    ensures (whole + "." + frac)[0] == whole[0]
  {
    var body := whole + "." + frac;
    NoPointInDigits(whole);
    assert body[..|whole|] == whole;
    assert IndexOf(body, '.') == |whole|;
    assert body[|whole| + 1..] == frac;
  }

  lemma NumberTextIsTrimmed(d: Decimal)
    ensures IsTrimmed(NumberToString(d)) && NoWs(NumberToString(d))
    ensures |NumberToString(d)| > 0
    ensures NumberToString(d)[0] != '"' && NumberToString(d)[0] != '\''
  {
    NumberTextChars(d);
    NumberTextEndsInDigit(d);
    NumberCharsAreClean(NumberToString(d));
  }

  /** Digits, signs and points are neither white space nor quotes. */
  lemma NumberCharsAreClean(s: string)
    requires |s| > 0
    requires forall i :: 0 <= i < |s| ==> IsDigit(s[i]) || s[i] == '-' || s[i] == '.'
    ensures IsTrimmed(s) && NoWs(s) && s[0] != '"' && s[0] != '\''
  {
  }

  /** The printed number ends in a digit. */
  lemma NumberTextEndsInDigit(d: Decimal)
    ensures |NumberToString(d)| > 0 && IsDigit(NumberToString(d)[|NumberToString(d)| - 1])
  {
    var ds := NatDigits(Abs(d.mantissa));
    var body := PlaceDigits(ds, d.exp);
    assert body[|body| - 1] == ds[|ds| - 1];
    var s := NumberToString(d);
    assert s[|s| - 1] == body[|body| - 1];
  }

  /** Every character of the printed number is a digit, the sign or the point. */
  lemma NumberTextChars(d: Decimal)
    ensures forall i :: 0 <= i < |NumberToString(d)| ==>
              IsDigit(NumberToString(d)[i]) || NumberToString(d)[i] == '-' || NumberToString(d)[i] == '.'
  {
  }

  /** A word is not a number: `min_duration_ms = nope` gives no number. */
  lemma WordIsNotANumber()
    ensures ParseNumber("nope") == None
  {
    var t := "nope";
    assert IsTrimmed(t);
    TrimmedIsFixed(t);
    assert t[0] == 'n';
    NoPointInWord(t);
    assert !AllDigits(t);
  }

  lemma NoPointInWord(t: string)
    requires t == "nope"
    ensures IndexOf(t, '.') == -1
  {
    assert forall i :: 0 <= i < |t| ==> t[i] != '.';
  }
}
