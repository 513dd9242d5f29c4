/**
 * Go's 64-bit signed integers and the decimal conversions the encoder uses:
 * `strconv.FormatInt`, `strconv.ParseInt(s, 10, 64)`, `big.Int.SetString(s, 10)`,
 * `big.Int.Int64` and the `IsNumeric` classifier built on `strconv.ParseFloat`.
 */
module Numbers {
  import opened Wrappers
  import opened Text

  const MinInt64: int := -0x8000_0000_0000_0000
  const MaxInt64: int := 0x7FFF_FFFF_FFFF_FFFF
  const Modulus64: int := 0x1_0000_0000_0000_0000

  predicate InInt64(v: int)
  {
    MinInt64 <= v <= MaxInt64
  }

  /** Two's-complement wrap-around of an exact value into int64 (Go's `+`, `*` and `big.Int.Int64`). */
  function Wrap64(v: int): (r: int)
    ensures InInt64(r)
    ensures (r - v) % Modulus64 == 0
    ensures InInt64(v) ==> r == v
  {
    (v - MinInt64) % Modulus64 + MinInt64
  }

  /** Go's `/ 2` on integers, which truncates toward zero. */
  function TruncDiv2(v: int): (q: int)
    ensures v >= 0 ==> 0 <= v - 2 * q <= 1
    ensures v < 0 ==> 0 <= 2 * q - v <= 1
  {
    if v >= 0 then v / 2 else -((-v) / 2)
  }

  predicate IsDigit(c: char)
  {
    '0' <= c <= '9'
  }

  predicate AllDigits(s: string)
  {
    forall k :: 0 <= k < |s| ==> IsDigit(s[k])
  }

  function DigitChar(d: nat): (c: char)
    requires d < 10
    ensures IsDigit(c)
  {
    ('0' as int + d) as char
  }

  function DigitValue(c: char): (d: nat)
    requires IsDigit(c)
    ensures d < 10 && DigitChar(d) == c
  {
    c as int - '0' as int
  }

  /** The value of a string of decimal digits, most significant first. */
  function DigitsValue(s: string): nat
    requires AllDigits(s)
    decreases |s|
  {
    if |s| == 0 then 0 else DigitsValue(s[..|s| - 1]) * 10 + DigitValue(s[|s| - 1])
  }

  /** The shortest decimal form of a natural number; its digits read back give the number. */
  function Digits(n: nat): (s: string)
    ensures |s| >= 1 && AllDigits(s)
    ensures DigitsValue(s) == n
    ensures |s| > 1 ==> s[0] != '0'
    decreases n
  {
    if n < 10 then [DigitChar(n)]
    else
      var s := Digits(n / 10) + [DigitChar(n % 10)];
      assert s[..|s| - 1] == Digits(n / 10);
      s
  }

  /** `strconv.FormatInt(v, 10)` (and `fmt.Sprintf("%d", v)`). */
  function FormatInt(v: int): (s: string)
    ensures |s| >= 1
    ensures forall k :: 0 <= k < |s| ==> IsDigit(s[k]) || s[k] == '-'
    ensures v >= 0 <==> AllDigits(s)
  {
    if v < 0 then
      var s := "-" + Digits(-v);
      assert !IsDigit(s[0]);
      s
    else Digits(v)
  }

  /**
   * The decimal integer syntax shared by `big.Int.SetString(s, 10)` and
   * `strconv.ParseInt(s, 10, _)`: an optional sign and at least one digit.
   * Every string it accepts is also numeric for `IsNumeric`.
   */
  function ParseDecimal(s: string): (r: Option<int>)
    ensures r.Some? ==> IsNumeric(s)
  {
    if |s| > 0 && (s[0] == '+' || s[0] == '-') then
      var m := s[1..];
      if |m| > 0 && AllDigits(m) then
        DigitsAreNumeric(m);
        var magnitude: int := DigitsValue(m);
        Some(if s[0] == '-' then -magnitude else magnitude)
      else None
    else if |s| > 0 && AllDigits(s) then
      DigitsAreNumeric(s);
      Some(DigitsValue(s))
    else None
  }

  /**
   * `strconv.ParseInt(s, 10, 64)`: decimal syntax and a value that fits int64.
   * On the spelling `FormatInt` produces it is `FormatInt`'s inverse.
   */
  function ParseInt64(s: string): (r: Option<int>)
    ensures r.Some? ==> InInt64(r.value) && ParseDecimal(s) == r
    ensures r.None? ==> ParseDecimal(s).None? || !InInt64(ParseDecimal(s).value)
    ensures r.Some? && CanonicalDecimal(s) ==> FormatInt(r.value) == s
  {
    FormatParse(s);
    match ParseDecimal(s)
    case Some(v) => if InInt64(v) then Some(v) else None
    case None => None
  }

  /** The spelling `FormatInt` produces: an optional `-`, digits without a leading zero, and no `-0`. */
  predicate CanonicalDecimal(s: string)
  {
    var m := if |s| > 0 && s[0] == '-' then s[1..] else s;
    |m| >= 1 && AllDigits(m) && (|m| > 1 ==> m[0] != '0') && (|s| > 0 && s[0] == '-' ==> m != "0")
  }

  /** Digits that do not start with `0` have a positive value. */
  lemma {:induction false} LeadingDigitPositive(m: string)
    requires |m| >= 1 && AllDigits(m) && m[0] != '0'
    ensures DigitsValue(m) >= 1
    decreases |m|
  {
    if |m| > 1 {
      LeadingDigitPositive(m[..|m| - 1]);
    }
  }

  /** Digits without a leading zero are the decimal form of their value. */
  lemma {:induction false} DigitsOfValue(m: string)
    requires |m| >= 1 && AllDigits(m) && (|m| > 1 ==> m[0] != '0')
    ensures Digits(DigitsValue(m)) == m
    decreases |m|
  {
    if |m| > 1 {
      var front := m[..|m| - 1];
      LeadingDigitPositive(front);
      DigitsOfValue(front);
      var v := DigitsValue(m);
      assert v / 10 == DigitsValue(front) && v % 10 == DigitValue(m[|m| - 1]);
      assert m == front + [m[|m| - 1]];
    }
  }

  /** Parsing a canonical spelling and formatting the value gives the spelling back. */
  lemma FormatParse(s: string)
    ensures CanonicalDecimal(s) ==> ParseDecimal(s).Some? && FormatInt(ParseDecimal(s).value) == s
  {
    if CanonicalDecimal(s) {
      if s[0] == '-' {
        FormatParseNegative(s);
      } else {
        assert IsDigit(s[0]);
        assert ParseDecimal(s) == Some(DigitsValue(s));
        DigitsOfValue(s);
      }
    }
  }

  lemma FormatParseNegative(s: string)
    requires CanonicalDecimal(s) && s[0] == '-'
    ensures ParseDecimal(s).Some? && FormatInt(ParseDecimal(s).value) == s
  {
    var m := s[1..];
    if |m| > 1 {
      LeadingDigitPositive(m);
    } else {
      assert m[0] != '0';
    }
    var v: int := DigitsValue(m);
    assert ParseDecimal(s) == Some(-v);
    DigitsOfValue(m);
    assert FormatInt(-v) == "-" + Digits(v);
    assert s == "-" + m;
  }

  /** The strings `strconv.ParseFloat` reads as an infinity (after an optional sign). */
  predicate IsInfinity(u: string)
  {
    var l := ToLower(u);
    l == "inf" || l == "infinity"
  }

  /** Digits with at most one decimal point somewhere, and at least one digit. */
  predicate IsMantissa(m: string)
  {
    var d := IndexOfAny(m, {'.'});
    if d == |m| then |m| > 0 && AllDigits(m)
    else |m| > 1 && AllDigits(m[..d]) && AllDigits(m[d + 1..])
  }

  /** An optional sign and at least one digit. */
  predicate IsExponent(x: string)
  {
    var t := if |x| > 0 && (x[0] == '+' || x[0] == '-') then x[1..] else x;
    |t| > 0 && AllDigits(t)
  }

  /** A decimal floating-point literal without its sign: mantissa, then optionally `e`/`E` and an exponent. */
  predicate IsDecimalFloat(u: string)
  {
    var e := IndexOfAny(u, {'e', 'E'});
    IsMantissa(u[..e]) && (e == |u| || IsExponent(u[e + 1..]))
  }

  /**
   * `IsNumeric`: `strconv.ParseFloat(s, 64)` succeeds and the value is not NaN.
   * This recognises the decimal and infinity spellings of ParseFloat.
   */
  predicate IsNumeric(s: string)
  {
    var u := Unsigned(s);
    IsInfinity(u) || IsDecimalFloat(u)
  }

  /** `s` without its leading sign, if it has one. */
  function Unsigned(s: string): string
  {
    if |s| > 0 && (s[0] == '+' || s[0] == '-') then s[1..] else s
  }

  /** A decimal float has at least one digit. */
  lemma DecimalFloatHasDigit(u: string)
    requires IsDecimalFloat(u)
    ensures exists k :: 0 <= k < |u| && IsDigit(u[k])
  {
    var e := IndexOfAny(u, {'e', 'E'});
    var m := u[..e];
    var d := IndexOfAny(m, {'.'});
    if d == |m| || d > 0 {
      assert IsDigit(m[0]) by { if d > 0 { assert m[..d][0] == m[0]; } }
      assert u[0] == m[0];
    } else {
      assert m[d + 1..][0] == m[1];
      assert IsDigit(u[1]);
    }
  }

  /** A numeric word is not empty, and it holds a decimal digit unless it spells infinity. */
  lemma NumericHasDigit(s: string)
    ensures IsNumeric(s) ==> |s| >= 1
    ensures IsNumeric(s) && !IsInfinity(Unsigned(s)) ==> exists k :: 0 <= k < |s| && IsDigit(s[k])
  {
    var u := Unsigned(s);
    UnsignedSuffix(s);
    if IsInfinity(u) {
      InfinityLength(u);
    } else if IsDecimalFloat(u) {
      DecimalFloatHasDigit(u);
      var k :| 0 <= k < |u| && IsDigit(u[k]);
      assert s[k + |s| - |u|] == u[k];
    }
  }

  lemma UnsignedSuffix(s: string)
    ensures |Unsigned(s)| <= |s| && Unsigned(s) == s[|s| - |Unsigned(s)|..]
  {
  }

  lemma InfinityLength(u: string)
    requires IsInfinity(u)
    ensures |u| >= 3
  {
    assert |ToLower(u)| == |u|;
  }

  lemma DigitsAreNumeric(m: string)
    requires |m| > 0 && AllDigits(m)
    ensures IsDecimalFloat(m) && IsNumeric(m)
  {
    var e := IndexOfAny(m, {'e', 'E'});
    assert e == |m|;
    assert m[..e] == m;
    var d := IndexOfAny(m, {'.'});
    assert d == |m|;
    assert IsDigit(m[0]);
  }

  /** The decimal form of an integer reads back as that integer. */
  lemma ParseFormat(v: int)
    ensures ParseDecimal(FormatInt(v)) == Some(v)
    ensures InInt64(v) ==> ParseInt64(FormatInt(v)) == Some(v)
  {
    var s := FormatInt(v);
    if v < 0 {
      assert s[1..] == Digits(-v);
    } else {
      assert s[0] != '+' && s[0] != '-' by { assert IsDigit(s[0]); }
    }
  }

  /** "NaN" is a float for ParseFloat, but IsNumeric rejects it. */
  lemma NaNIsNotNumeric()
    ensures !IsNumeric("NaN")
  {
    var u := "NaN";
    assert ToLower(u) == "nan";
    var e := IndexOfAny(u, {'e', 'E'});
    assert e == 3;
    assert u[..e] == u;
    assert !AllDigits(u) by { assert !IsDigit(u[0]); }
  }
}
