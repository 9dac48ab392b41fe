/**
 * Numbers as the program meets them in text: the decimal grammar that
 * `pd.to_numeric` accepts (the plain forms), `round(2)` and the text Python
 * gives a two-decimal float with `str`.
 * Values are exact reals; the cents of a rounded value are an `int`.
 */
module Numbers {
  import opened Wrappers

  predicate IsDigit(c: char) {
    '0' <= c <= '9'
  }

  predicate AllDigits(s: string) {
    forall k :: 0 <= k < |s| ==> IsDigit(s[k])
  }

  function DigitChar(d: nat): (c: char)
    requires d < 10
    ensures IsDigit(c) && c as int - '0' as int == d
  {
    ('0' as int + d) as char
  }

  /** The value of a string of decimal digits, most significant first. */
  function DigitsValue(s: string): nat
    requires AllDigits(s)
  {
    if s == [] then 0 else DigitsValue(s[..|s| - 1]) * 10 + (s[|s| - 1] as int - '0' as int)
  }

  lemma DigitsValueSnoc(s: string, c: char)
    requires AllDigits(s) && IsDigit(c)
    ensures AllDigits(s + [c])
    ensures DigitsValue(s + [c]) == DigitsValue(s) * 10 + (c as int - '0' as int)
  {
    assert (s + [c])[..|s|] == s;
  }

  /** Decimal text of a natural number, with no leading zero; `DigitsValue` reads it back. */
  function NatText(n: nat): (s: string)
    ensures |s| > 0 && AllDigits(s)
    ensures DigitsValue(s) == n
    ensures |s| > 1 ==> s[0] != '0'
  {
    if n < 10 then [DigitChar(n)]
    else
      var s := NatText(n / 10) + [DigitChar(n % 10)];
      assert s[..|s| - 1] == NatText(n / 10);
      s
  }

  function Pow10(n: nat): (p: nat)
    ensures p > 0
  {
    if n == 0 then 1 else 10 * Pow10(n - 1)
  }

  /** The index of the first `.` of `s`, or `|s|` when there is none. */
  function FirstDot(s: string): (i: nat)
    ensures i <= |s|
    ensures i < |s| ==> s[i] == '.'
    ensures forall j :: 0 <= j < i ==> s[j] != '.'
  {
    if s == [] || s[0] == '.' then 0 else 1 + FirstDot(s[1..])
  }

  /** Digits, optionally followed by `.` and more digits; at least one digit in all. */
  function ParseUnsigned(s: string): (r: Option<real>)
    ensures r.Some? ==> r.value >= 0.0
  {
    var i := FirstDot(s);
    var whole := s[..i];
    if !AllDigits(whole) then None
    else if i == |s| then
      if whole == [] then None else Some(DigitsValue(whole) as real)
    else
      var frac := s[i + 1..];
      if !AllDigits(frac) || (whole == [] && frac == []) then None
      else Some(DigitsValue(whole) as real + DigitsValue(frac) as real / Pow10(|frac|) as real)
  }

  /**
   * `pd.to_numeric` on one string with `errors='coerce'`: `None` stands for
   * the missing marker produced on failure. An optional sign, then an
   * unsigned decimal.
   */
  function ParseNumber(s: string): (r: Option<real>)
    ensures s == [] ==> r == None
  {
    if |s| > 0 && (s[0] == '-' || s[0] == '+') then
      match ParseUnsigned(s[1..])
      case None => None
      case Some(x) => Some(if s[0] == '-' then -x else x)
    else
      ParseUnsigned(s)
  }

  /**
   * The texts `pd.to_numeric` reads as an unsigned decimal, described
   * without parsing: digits and dots only, at most one dot, at least one digit.
   */
  predicate DecimalText(s: string) {
    && (forall k :: 0 <= k < |s| ==> IsDigit(s[k]) || s[k] == '.')
    && (forall i, j :: 0 <= i < j < |s| && s[i] == '.' ==> s[j] != '.')
    && (exists k :: 0 <= k < |s| && IsDigit(s[k]))
  }

  /** An optional sign before an unsigned decimal. */
  predicate SignedDecimalText(s: string) {
    DecimalText(s) || (|s| > 0 && (s[0] == '-' || s[0] == '+') && DecimalText(s[1..]))
  }

  /** `ParseUnsigned` accepts exactly the decimal texts; everything else is the missing marker. */
  lemma ParseUnsignedAccepts(s: string)
    ensures ParseUnsigned(s).Some? <==> DecimalText(s)
  {
    var i := FirstDot(s);
    var whole := s[..i];
    assert forall k :: 0 <= k < i ==> whole[k] == s[k];
    if i == |s| {
      if s != [] && AllDigits(s) {
        assert IsDigit(s[0]);
      }
    } else {
      var frac := s[i + 1..];
      assert forall k :: i + 1 <= k < |s| ==> frac[k - (i + 1)] == s[k];
      if DecimalText(s) {
        forall k | 0 <= k < |frac| ensures IsDigit(frac[k]) {
          assert s[i] == '.' && frac[k] == s[k + i + 1];
        }
        var d :| 0 <= d < |s| && IsDigit(s[d]);
        if d < i {
          assert whole[d] == s[d];
        } else {
          assert d > i && frac[d - (i + 1)] == s[d];
        }
      }
      if ParseUnsigned(s).Some? {
        if whole != [] {
          assert IsDigit(s[0]);
        } else {
          assert IsDigit(s[i + 1]);
        }
        forall a, b | 0 <= a < b < |s| && s[a] == '.' ensures s[b] != '.' {
          if b > i {
            assert frac[b - (i + 1)] == s[b];
          } else if b == i {
            assert false;
          }
        }
      }
    }
  }

  /** `ParseNumber` accepts exactly an optional sign before a decimal text. */
  lemma ParseNumberAccepts(s: string)
    ensures ParseNumber(s).Some? <==> SignedDecimalText(s)
  {
    if |s| > 0 && (s[0] == '-' || s[0] == '+') {
      ParseUnsignedAccepts(s[1..]);
      assert !IsDigit(s[0]) && s[0] != '.';
    } else {
      ParseUnsignedAccepts(s);
    }
  }

  /** In the plain decimal grammar, text with an ASCII letter in it is not a number. */
  lemma LetterNotNumber(s: string, k: nat)
    requires k < |s| && ('a' <= s[k] <= 'z' || 'A' <= s[k] <= 'Z')
    ensures ParseNumber(s) == None
  {
    ParseNumberAccepts(s);
    if |s| > 0 && (s[0] == '-' || s[0] == '+') && k > 0 {
      assert s[1..][k - 1] == s[k];
    }
  }

  /** In a digit string followed by a dot, the first dot is the one after the digits. */
  lemma {:induction false} FirstDotAfterDigits(whole: string, rest: string)
    requires AllDigits(whole)
    ensures FirstDot(whole + "." + rest) == |whole|
  {
    var s := whole + "." + rest;
    assert s[|whole|] == '.';
    assert forall j :: 0 <= j < |whole| ==> s[j] == whole[j];
  }

  /**
   * Splitting at the first dot: a digit string, a dot and a digit string read
   * as one decimal. Either side may be empty (`.5`, `1.`), not both.
   */
  lemma {:induction false} ParseDecimal(whole: string, frac: string)
    requires AllDigits(whole) && AllDigits(frac) && (|whole| > 0 || |frac| > 0)
    ensures ParseUnsigned(whole + "." + frac)
         == Some(DigitsValue(whole) as real + DigitsValue(frac) as real / Pow10(|frac|) as real)
  {
    var s := whole + "." + frac;
    FirstDotAfterDigits(whole, frac);
    var i := |whole|;
    assert s[..i] == whole;
    assert s[i + 1..] == frac;
    assert i != |s|;
  }

  /** A digit string with no dot reads as the integer it spells (`1234` after `$1,234` is cleaned). */
  lemma {:induction false} ParseWhole(w: string)
    requires AllDigits(w) && |w| > 0
    ensures ParseUnsigned(w) == Some(DigitsValue(w) as real)
    ensures ParseNumber(w) == Some(DigitsValue(w) as real)
  {
    var i := FirstDot(w);
    if i < |w| {
      assert false;
    }
    assert w[..i] == w;
    assert IsDigit(w[0]);
  }

  /** A leading `+` changes nothing; a leading `-` negates; both fail with what follows them. */
  lemma {:induction false} SignParse(u: string)
    ensures ParseNumber("+" + u) == ParseUnsigned(u)
    ensures ParseNumber("-" + u).Some? <==> ParseUnsigned(u).Some?
    ensures ParseUnsigned(u).Some? ==> ParseNumber("-" + u) == Some(-ParseUnsigned(u).value)
  {
    assert ("+" + u)[1..] == u;
    assert ("-" + u)[1..] == u;
  }

  /** Number texts of each shape and their values: no dot, */
  lemma WholeExample()
    ensures ParseNumber("1234") == Some(1234.0)
  {
    ParseWhole("1234");
    assert "1234"[..3] == "123" && "123"[..2] == "12" && "12"[..1] == "1" && "1"[..0] == "";
    assert DigitsValue("1234") == 1234;
  }

  /** nothing before the dot, nothing after it, */
  lemma DotExamples()
    ensures ParseNumber(".5") == Some(0.5)
    ensures ParseNumber("1.") == Some(1.0)
  {
    ParseDecimal("", "5");
    assert "" + "." + "5" == ".5";
    assert "5"[..0] == "";
    ParseDecimal("1", "");
    assert "1" + "." + "" == "1.";
    assert "1"[..0] == "";
  }

  /** and a sign in front. */
  lemma PlusExample()
    ensures ParseNumber("+7.25") == Some(7.25)
  {
    assert "7"[..0] == "" && "25"[..1] == "2" && "2"[..0] == "";
    assert DigitsValue("7") == 7 && DigitsValue("25") == 25;
    SmallPowers();
    ParseDecimal("7", "25");
    assert "7" + "." + "25" == "7.25";
    assert ParseUnsigned("7.25") == Some(7.25);
    SignParse("7.25");
    assert "+" + "7.25" == "+7.25";
  }

  lemma MinusExample()
    ensures ParseNumber("-3") == Some(-3.0)
  {
    ParseWhole("3");
    assert "3"[..0] == "";
    SignParse("3");
    assert "-" + "3" == "-3";
  }

  /**
   * Python's `round(x, 2)` on an exact value: the number of cents nearest
   * to `x`, a tie going to the even neighbour.
   */
  function RoundCents(x: real): (c: int)
    ensures -0.5 <= x * 100.0 - c as real <= 0.5
  {
    var y := x * 100.0;
    var f := y.Floor;
    var d := y - f as real;
    if d < 0.5 then f
    else if d > 0.5 then f + 1
    else if f % 2 == 0 then f
    else f + 1
  }

  function Round2(x: real): (r: real)
    ensures -0.005 <= x - r <= 0.005
  {
    RoundCents(x) as real / 100.0
  }

  /** A value that already has at most two decimals is left as it is. */
  lemma RoundExact(k: int)
    ensures RoundCents(k as real / 100.0) == k
  {
    var y := (k as real / 100.0) * 100.0;
    assert y == k as real;
    assert y.Floor == k;
  }

  /** Rounding twice is rounding once. */
  lemma RoundIdempotent(x: real)
    ensures Round2(Round2(x)) == Round2(x)
  {
    RoundExact(RoundCents(x));
  }

  lemma OneDigit(d: nat)
    requires d < 10
    ensures AllDigits([DigitChar(d)]) && DigitsValue([DigitChar(d)]) == d
  {
    DigitsValueSnoc([], DigitChar(d));
    assert [] + [DigitChar(d)] == [DigitChar(d)];
  }

  lemma TwoDigits(f: nat)
    requires f < 100
    ensures AllDigits([DigitChar(f / 10), DigitChar(f % 10)])
    ensures DigitsValue([DigitChar(f / 10), DigitChar(f % 10)]) == f
  {
    OneDigit(f / 10);
    DigitsValueSnoc([DigitChar(f / 10)], DigitChar(f % 10));
    assert [DigitChar(f / 10)] + [DigitChar(f % 10)] == [DigitChar(f / 10), DigitChar(f % 10)];
  }

  lemma SmallPowers()
    ensures Pow10(1) == 10 && Pow10(2) == 100
  {
    assert Pow10(1) == 10 * Pow10(0);
  }

  /** The fraction digits Python prints for `f` hundredths: trailing zeros dropped, at least one digit. */
  function FracText(f: nat): (s: string)
    requires f < 100
    ensures |s| > 0 && AllDigits(s)
    ensures |s| <= 2 && (|s| == 1 <==> f % 10 == 0)
    ensures |s| == 2 ==> s[1] != '0'
    ensures DigitsValue(s) as real / Pow10(|s|) as real == f as real / 100.0
  {
    SmallPowers();
    if f % 10 == 0 then
      OneDigit(f / 10);
      assert (f / 10) as real / 10.0 == f as real / 100.0 by { assert f == (f / 10) * 10; }
      [DigitChar(f / 10)]
    else
      TwoDigits(f);
      [DigitChar(f / 10), DigitChar(f % 10)]
  }

  /** The unsigned part of `PyRepr`: whole units, a dot, the hundredths. */
  function UnsignedRepr(a: nat): (s: string)
    ensures |s| > 0 && IsDigit(s[0])
  {
    NatText(a / 100) + "." + FracText(a % 100)
  }

  /**
   * `str(x)` of the float `cents / 100` (Python's shortest repr). It is
   * Python's text for values of at most 15 significant digits (magnitudes
   * below 1e13), where the nearest double keeps every cent apart.
   */
  function PyRepr(cents: int): (s: string)
    ensures |s| > 0
    ensures s[0] == '-' <==> cents < 0
    ensures cents >= 0 ==> IsDigit(s[0])
    ensures cents < 0 ==> |s| > 1 && IsDigit(s[1])
  {
    if cents < 0 then "-" + UnsignedRepr(-cents) else UnsignedRepr(cents)
  }

  lemma CentsSplit(a: nat)
    ensures (a / 100) as real + (a % 100) as real / 100.0 == a as real / 100.0
  {
    assert a == (a / 100) * 100 + a % 100;
  }

  lemma {:induction false} UnsignedReprRoundTrip(a: nat)
    ensures ParseUnsigned(UnsignedRepr(a)) == Some(a as real / 100.0)
  {
    var whole, frac := NatText(a / 100), FracText(a % 100);
    ParseDecimal(whole, frac);
    CentsSplit(a);
  }

  /** A leading minus negates the unsigned decimal after it. */
  lemma NegativeParse(body: string)
    requires ParseUnsigned(body).Some?
    ensures ParseNumber("-" + body) == Some(-ParseUnsigned(body).value)
  {
    assert ("-" + body)[1..] == body;
  }

  /** Text that starts with a digit is read as an unsigned decimal. */
  lemma DigitFirstParse(body: string)
    requires |body| > 0 && IsDigit(body[0])
    ensures ParseNumber(body) == ParseUnsigned(body)
  {
  }

  /** The text of a two-decimal value parses back to that value. */
  lemma {:induction false} PyReprRoundTrip(cents: int)
    ensures ParseNumber(PyRepr(cents)) == Some(cents as real / 100.0)
  {
    if cents < 0 {
      var a: nat := -cents;
      NegativeReprRoundTrip(a);
      assert PyRepr(cents) == "-" + UnsignedRepr(a);
      assert -(a as real / 100.0) == cents as real / 100.0;
    } else {
      UnsignedReprRoundTrip(cents);
      DigitFirstParse(UnsignedRepr(cents));
    }
  }

  lemma NegativeReprRoundTrip(a: nat)
    ensures ParseNumber("-" + UnsignedRepr(a)) == Some(-(a as real / 100.0))
  {
    UnsignedReprRoundTrip(a);
    NegativeParse(UnsignedRepr(a));
  }

  /** Python prints 12.5 as `12.5`, with no trailing zero, and 7.25 as `7.25`. */
  lemma ReprExamples()
    ensures PyRepr(1250) == "12.5"
    ensures PyRepr(725) == "7.25"
  {
    assert FracText(50) == "5" && FracText(25) == "25";
    assert NatText(12) == "12" by { assert NatText(1) == "1"; }
  }

  /** The same with a `%` after the text, as a growth label prints it. */
  lemma PercentTextRoundTrip(cents: int)
    ensures var s := PyRepr(cents) + "%";
      ParseNumber(s[..|s| - 1]) == Some(cents as real / 100.0)
  {
    var text := PyRepr(cents);
    assert (text + "%")[..|text|] == text;
    PyReprRoundTrip(cents);
  }
}
