/**
  Finite decimals as exact rationals: the reader of `parseDecimalRational`, the
  18-digit printer of `canonicalUnitProjectionV1`, and the laws between them.
  Dafny's reals are exact, so they stand for big.Rat without rounding.
 */
module DecimalRational {
  import opened Wrappers
  import opened Text

  /** `isNonFiniteLiteral`. */
  predicate IsNonFinite(s: string) {
    var word := Lower(TrimSpace(s));
    || word == "nan" || word == "+nan" || word == "-nan"
    || word == "inf" || word == "+inf" || word == "-inf"
    || word == "infinity" || word == "+infinity" || word == "-infinity"
  }

  /** The non-finite words: both spellings of infinity and not-a-number, signed or not, in any case, space around. */
  lemma NonFiniteWords(s: string)
    ensures IsNonFinite(s) <==>
            exists sign, word | sign in {"", "+", "-"} && word in {"nan", "inf", "infinity"} ::
              Lower(TrimSpace(s)) == sign + word
  {
    hide TrimSpace, Lower;
    assert "" + "nan" == "nan" && "" + "inf" == "inf" && "" + "infinity" == "infinity";
    assert "+" + "nan" == "+nan" && "+" + "inf" == "+inf" && "+" + "infinity" == "+infinity";
    assert "-" + "nan" == "-nan" && "-" + "inf" == "-inf" && "-" + "infinity" == "-infinity";
  }

  // The grammar, generatively

  datatype Exponent = Exponent(marker: char, sign: string, digits: string)

  /** A numeral of the grammar, taken apart. */
  datatype Numeral = Numeral(sign: string, whole: string, point: bool, fraction: string, exponent: Option<Exponent>) {
    predicate Valid() {
      && IsSign(sign) && AllDigits(whole) && AllDigits(fraction)
      && (whole != "" || (point && fraction != ""))
      && (!point ==> fraction == "")
      && (exponent.Some? ==>
            && (exponent.value.marker == 'e' || exponent.value.marker == 'E')
            && IsSign(exponent.value.sign) && exponent.value.digits != "" && AllDigits(exponent.value.digits))
    }

    function ExponentText(): string {
      if exponent.Some? then [exponent.value.marker] + (exponent.value.sign + exponent.value.digits) else ""
    }

    function Render(): string {
      sign + (whole + if point then ['.'] + (fraction + ExponentText()) else ExponentText())
    }

    /** The rendering without its exponent. */
    function MantissaText(): string {
      sign + (whole + if point then ['.'] + fraction else "")
    }

    function ExponentValue(): int
      requires Valid()
    {
      if exponent.Some? then
        (if exponent.value.sign == "-" then -1 else 1) * DigitsValue(exponent.value.digits)
      else 0
    }

    /** The number the numeral denotes. */
    function Value(): real
      requires Valid()
    {
      (if sign == "-" then -1.0 else 1.0)
      * (DigitsValue(whole) as real + FractionValue(fraction)) * TenTo(ExponentValue())
    }
  }

  predicate IsSign(s: string) {
    s == "" || s == "+" || s == "-"
  }

  /** The value of digits after a decimal point: tenths, hundredths and so on. */
  function FractionValue(s: string): real
    requires AllDigits(s)
  {
    if s == "" then 0.0 else (DigitOf(s[0]) as real + FractionValue(s[1..])) / 10.0
  }

  function TenTo(n: int): (p: real)
    ensures p > 0.0
    decreases if n < 0 then -n else n
  {
    if n == 0 then 1.0 else if n > 0 then 10.0 * TenTo(n - 1) else TenTo(n + 1) / 10.0
  }

  // The reader

  predicate MatchesExponent(s: string) {
    || s == ""
    || ((s[0] == 'e' || s[0] == 'E') && DropSign(s[1..]) != "" && AllDigits(DropSign(s[1..])))
  }

  /** `decimalRationalPattern`: sign? (digits (. digits?)? | . digits) ([eE] sign? digits)? */
  predicate Matches(s: string) {
    var t := DropSign(s);
    var n := DigitSpan(t);
    var u := t[n..];
    if u != "" && u[0] == '.' then
      var m := DigitSpan(u[1..]);
      (n > 0 || m > 0) && MatchesExponent(u[1..][m..])
    else n > 0 && MatchesExponent(u)
  }

  function IndexOfMarker(s: string): (n: nat)
    ensures n <= |s|
  {
    if s == "" || s[0] == 'e' || s[0] == 'E' then 0 else 1 + IndexOfMarker(s[1..])
  }

  function IndexOfPoint(s: string): (n: nat)
    ensures n <= |s|
  {
    if s == "" || s[0] == '.' then 0 else 1 + IndexOfPoint(s[1..])
  }

  /** What is left of a matched numeral once its exponent is cut off: sign, digits, scale. */
  function Mantissa(s: string): Option<(int, nat)> {
    if s == "" then None
    else
      var unsigned := DropSign(s);
      var point := IndexOfPoint(unsigned);
      var scale := if point < |unsigned| then |unsigned| - point - 1 else 0;
      var digits := if point < |unsigned| then unsigned[..point] + unsigned[point + 1..] else unsigned;
      if digits == "" || !AllDigits(digits) then None
      else Some(((if s[0] == '-' then -1 else 1) * DigitsValue(digits), scale))
  }

  function Scaled(numerator: int, scale: nat, exponent: int): real {
    if exponent > 0 then (numerator * Pow10(exponent)) as real / Pow10(scale) as real
    else if exponent < 0 then numerator as real / (Pow10(scale) * Pow10(-exponent)) as real
    else numerator as real / Pow10(scale) as real
  }

  /** `parseDecimalRational`. */
  function ParseDecimal(raw: string): Option<real> {
    var s := TrimSpace(raw);
    if s == "" || IsNonFinite(s) || !Matches(s) then None
    else
      var position := IndexOfMarker(s);
      var exponent :- if position < |s| then Atoi(s[position + 1..]) else Some(0);
      if exponent < -1000 || exponent > 1000 then None
      else
        var (numerator, scale) :- Mantissa(s[..position]);
        Some(Scaled(numerator, scale, exponent))
  }

  // Powers of ten

  lemma {:induction false} TenToNat(n: nat)
    ensures TenTo(n) == Pow10(n) as real
  {
    if n > 0 {
      TenToNat(n - 1);
    }
  }

  lemma {:induction false} TenToNegative(n: int)
    requires n >= 0
    ensures TenTo(-n) * Pow10(n) as real == 1.0
  {
    if n > 0 {
      TenToNegative(n - 1);
      var t, p := TenTo(-(n - 1)), Pow10(n - 1) as real;
      assert TenTo(-n) == t / 10.0;
      assert Pow10(n) as real == 10.0 * p;
      TenthTimesTen(t, p);
    }
  }

  lemma TenthTimesTen(t: real, p: real)
    ensures t / 10.0 * (10.0 * p) == t * p
  {
    var x := t / 10.0;
    assert t == 10.0 * x;
    assert x * (10.0 * p) == 10.0 * x * p;
  }

  lemma QuotientUnique(x: real, y: real, z: real)
    requires y > 0.0 && z * y == x
    ensures x / y == z
  {
    assert z == z * y / y;
  }

  /** The scaled quotient is numerator · 10^(exponent − scale). */
  lemma ScaledValue(numerator: int, scale: nat, exponent: int, mantissa: real)
    requires mantissa * Pow10(scale) as real == numerator as real
    ensures Scaled(numerator, scale, exponent) == mantissa * TenTo(exponent)
  {
    hide Pow10, TenTo, Scaled;
    if exponent > 0 {
      ScaledUp(numerator, scale, exponent, mantissa);
    } else if exponent < 0 {
      ScaledDown(numerator, scale, exponent, mantissa);
    } else {
      ScaledEven(numerator, scale, mantissa);
    }
  }

  lemma ScaledUp(numerator: int, scale: nat, exponent: int, mantissa: real)
    requires exponent > 0 && mantissa * Pow10(scale) as real == numerator as real
    ensures Scaled(numerator, scale, exponent) == mantissa * TenTo(exponent)
  {
    hide Pow10, TenTo;
    TenToNat(exponent);
    RealProduct(numerator, Pow10(exponent));
    QuotientTimes(numerator as real, Pow10(scale) as real, mantissa, Pow10(exponent) as real);
  }

  lemma ScaledDown(numerator: int, scale: nat, exponent: int, mantissa: real)
    requires exponent < 0 && mantissa * Pow10(scale) as real == numerator as real
    ensures Scaled(numerator, scale, exponent) == mantissa * TenTo(exponent)
  {
    hide Pow10, TenTo;
    TenToNegative(-exponent);
    RealProduct(Pow10(scale), Pow10(-exponent));
    QuotientOver(numerator as real, Pow10(scale) as real, mantissa, Pow10(-exponent) as real, TenTo(exponent));
  }

  lemma ScaledEven(numerator: int, scale: nat, mantissa: real)
    requires mantissa * Pow10(scale) as real == numerator as real
    ensures Scaled(numerator, scale, 0) == mantissa * TenTo(0)
  {
    hide Pow10;
    QuotientUnique(numerator as real, Pow10(scale) as real, mantissa);
  }

  lemma RealProduct(a: int, b: int)
    ensures (a * b) as real == a as real * b as real
  {
  }

  lemma QuotientTimes(n: real, p: real, m: real, e: real)
    requires p > 0.0 && m * p == n
    ensures n * e / p == m * e
  {
    assert m * e * p == m * p * e;
    QuotientUnique(n * e, p, m * e);
  }

  lemma QuotientOver(n: real, p: real, m: real, e: real, t: real)
    requires p > 0.0 && e > 0.0 && m * p == n && t * e == 1.0
    ensures p * e > 0.0 && n / (p * e) == m * t
  {
    Regroup(m, t, p, e);
    QuotientUnique(n, p * e, m * t);
  }

  lemma Regroup(a: real, b: real, c: real, d: real)
    ensures a * b * (c * d) == a * c * (b * d)
  {
    assert a * b * (c * d) == a * b * c * d;
    assert a * c * (b * d) == a * c * b * d;
    assert a * b * c == a * c * b;
  }

  lemma AppendDigit(s: string, digit: char)
    requires AllDigits(s) && IsDigit(digit)
    ensures AllDigits(s + [digit]) && DigitsValue(s + [digit]) == 10 * DigitsValue(s) + DigitOf(digit)
  {
    var t := s + [digit];
    assert t[..|t| - 1] == s;
  }

  lemma PrependDigit(digit: char, s: string)
    requires IsDigit(digit) && AllDigits(s)
    ensures AllDigits([digit] + s) && FractionValue([digit] + s) == (DigitOf(digit) as real + FractionValue(s)) / 10.0
  {
    assert ([digit] + s)[1..] == s;
  }

  lemma NoFraction()
    ensures FractionValue("") == 0.0 && Pow10(0) == 1
  {
  }

  lemma PowStep(n: nat)
    ensures Pow10(n + 1) as real == 10.0 * Pow10(n) as real
  {
  }

  /** Digits before and after the point, joined: the shift by the fraction's length. */
  lemma {:induction false} JoinedDigits(whole: string, fraction: string)
    requires AllDigits(whole) && AllDigits(fraction)
    ensures AllDigits(whole + fraction)
    ensures (DigitsValue(whole) as real + FractionValue(fraction)) * Pow10(|fraction|) as real ==
        DigitsValue(whole + fraction) as real
    decreases |fraction|
  {
    hide DigitsValue, FractionValue, Pow10, DigitOf;
    if fraction == "" {
      NoFraction();
      assert whole + fraction == whole;
    } else {
      var digit, rest := fraction[0], fraction[1..];
      AppendDigit(whole, digit);
      PrependDigit(digit, rest);
      PowStep(|rest|);
      assert fraction == [digit] + rest;
      ShiftOneDigit(DigitsValue(whole) as real, DigitOf(digit) as real, FractionValue(rest), Pow10(|rest|) as real);
      JoinedDigits(whole + [digit], rest);
      assert (whole + [digit]) + rest == whole + fraction;
    }
  }

  lemma ShiftOneDigit(w: real, d: real, f: real, p: real)
    ensures (w + (d + f) / 10.0) * (10.0 * p) == (10.0 * w + d + f) * p
  {
    var x := (d + f) / 10.0;
    assert d + f == 10.0 * x;
    assert (w + x) * (10.0 * p) == (10.0 * w + 10.0 * x) * p;
  }

  // Reading a rendered numeral

  lemma {:induction false} IndexPastDigits(digits: string, rest: string)
    requires AllDigits(digits)
    ensures IndexOfMarker(digits + rest) == |digits| + IndexOfMarker(rest)
    ensures IndexOfPoint(digits + rest) == |digits| + IndexOfPoint(rest)
  {
    if digits == "" {
      assert digits + rest == rest;
    } else {
      assert (digits + rest)[1..] == digits[1..] + rest;
      IndexPastDigits(digits[1..], rest);
    }
  }

  lemma DropTheSign(sign: string, rest: string)
    requires IsSign(sign)
    requires rest == "" || (rest[0] != '+' && rest[0] != '-')
    ensures DropSign(sign + rest) == rest
  {
    if sign == "" {
      assert sign + rest == rest;
    } else {
      assert (sign + rest)[1..] == rest;
    }
  }

  lemma AtoiOfExponent(sign: string, digits: string)
    requires IsSign(sign) && digits != "" && AllDigits(digits)
    ensures Atoi(sign + digits) == Some((if sign == "-" then -1 else 1) * DigitsValue(digits))
  {
    DropTheSign(sign, digits);
  }

  lemma EndsWith(s: string, head: string, tail: string)
    requires s == head + tail && tail != ""
    ensures s != "" && s[|s| - 1] == tail[|tail| - 1]
  {
  }

  /** A numeral neither starts nor ends with white space, so trimming leaves it alone. */
  lemma NumeralEnds(n: Numeral)
    requires n.Valid()
    ensures var s := n.Render(); s != "" && !IsSpace(s[0]) && !IsSpace(s[|s| - 1])
  {
    var s := n.Render();
    var e := n.ExponentText();
    RenderSplits(n);
    if n.exponent.Some? {
      var digits := n.exponent.value.digits;
      EndsWith(e, [n.exponent.value.marker] + n.exponent.value.sign, digits);
      EndsWith(s, n.MantissaText(), e);
    } else if n.point {
      EndsWith(s, n.sign + n.whole, ['.'] + n.fraction);
    } else {
      EndsWith(s, n.sign, n.whole);
    }
  }

  lemma NonFiniteStart(word: string)
    requires || word == "nan" || word == "+nan" || word == "-nan"
             || word == "inf" || word == "+inf" || word == "-inf"
             || word == "infinity" || word == "+infinity" || word == "-infinity"
    ensures |word| >= 2
    ensures (word[0] == 'n' || word[0] == 'i'
        || ((word[0] == '+' || word[0] == '-') && (word[1] == 'n' || word[1] == 'i')))
  {
  }

  lemma TrimOfRender(n: Numeral)
    requires n.Valid()
    ensures TrimSpace(n.Render()) == n.Render()
  {
    hide TrimSpace, Numeral.Render;
    NumeralEnds(n);
    TrimPadded("", n.Render(), "");
    assert "" + n.Render() + "" == n.Render();
  }

  /** No numeral spells a non-finite value: after the sign comes a digit or a point. */
  lemma NumeralFinite(n: Numeral)
    requires n.Valid()
    ensures !IsNonFinite(n.Render())
  {
    hide TrimSpace, Numeral.ExponentText;
    TrimOfRender(n);
    var s := n.Render();
    var k := |n.sign|;
    assert IsDigit(s[k]) || s[k] == '.' by {
      if n.whole != "" {
        assert s[k] == n.whole[0];
      }
    }
    assert Lower(s)[k] == LowerChar(s[k]) == s[k];
    assert k == 1 ==> Lower(s)[0] == LowerChar(s[0]) == s[0];
    if IsNonFinite(s) {
      NonFiniteStart(Lower(s));
    }
  }

  predicate AllSpace(s: string) {
    forall i | 0 <= i < |s| :: IsSpace(s[i])
  }

  lemma {:induction false} TrimLeftPadded(pad: string, s: string)
    requires AllSpace(pad) && s != "" && !IsSpace(s[0])
    ensures TrimLeft(pad + s) == s
  {
    if pad == "" {
      assert pad + s == s;
    } else {
      assert (pad + s)[1..] == pad[1..] + s;
      TrimLeftPadded(pad[1..], s);
    }
  }

  lemma {:induction false} TrimRightPadded(s: string, pad: string)
    requires AllSpace(pad) && s != "" && !IsSpace(s[|s| - 1])
    ensures TrimRight(s + pad) == s
  {
    if pad == "" {
      assert s + pad == s;
    } else {
      assert (s + pad)[..|s + pad| - 1] == s + pad[..|pad| - 1];
      TrimRightPadded(s, pad[..|pad| - 1]);
    }
  }

  lemma TrimPadded(left: string, s: string, right: string)
    requires AllSpace(left) && AllSpace(right) && s != "" && !IsSpace(s[0]) && !IsSpace(s[|s| - 1])
    ensures TrimSpace(left + s + right) == s
  {
    assert left + s + right == left + (s + right);
    assert (s + right)[0] == s[0];
    TrimLeftPadded(left, s + right);
    TrimRightPadded(s, right);
  }

  // The cuts the reader makes in a rendered numeral

  predicate StartsExponent(e: string) {
    e == "" || e[0] == 'e' || e[0] == 'E'
  }

  lemma ExponentMatches(n: Numeral)
    requires n.Valid()
    ensures MatchesExponent(n.ExponentText()) && StartsExponent(n.ExponentText())
  {
    if n.exponent.Some? {
      var e := n.exponent.value;
      assert n.ExponentText()[1..] == e.sign + e.digits;
      DropTheSign(e.sign, e.digits);
    }
  }

  lemma MatchesWithPoint(sign: string, whole: string, fraction: string, e: string)
    requires IsSign(sign) && AllDigits(whole) && AllDigits(fraction) && (whole != "" || fraction != "")
    requires MatchesExponent(e) && StartsExponent(e)
    ensures Matches(sign + (whole + (['.'] + (fraction + e))))
  {
    hide MatchesExponent;
    var after := fraction + e;
    var tail := ['.'] + after;
    var t := whole + tail;
    assert t[0] != '+' && t[0] != '-';
    DropTheSign(sign, t);
    SpanOfDigits(whole, tail);
    assert t[|whole|..] == tail && tail[1..] == after;
    SpanOfDigits(fraction, e);
    assert after[|fraction|..] == e;
  }

  lemma MatchesWithoutPoint(sign: string, whole: string, e: string)
    requires IsSign(sign) && AllDigits(whole) && whole != ""
    requires MatchesExponent(e) && StartsExponent(e)
    ensures Matches(sign + (whole + e))
  {
    hide MatchesExponent;
    var t := whole + e;
    DropTheSign(sign, t);
    SpanOfDigits(whole, e);
    assert t[|whole|..] == e;
  }

  lemma RenderMatches(n: Numeral)
    requires n.Valid()
    ensures Matches(n.Render())
  {
    hide Matches, MatchesExponent, StartsExponent, Numeral.ExponentText;
    ExponentMatches(n);
    if n.point {
      MatchesWithPoint(n.sign, n.whole, n.fraction, n.ExponentText());
    } else {
      MatchesWithoutPoint(n.sign, n.whole, n.ExponentText());
    }
  }

  lemma {:induction false} NoMarkerBefore(s: string, e: string)
    requires forall i | 0 <= i < |s| :: s[i] != 'e' && s[i] != 'E'
    requires StartsExponent(e)
    ensures IndexOfMarker(s + e) == |s|
  {
    if s == "" {
      assert s + e == e;
    } else {
      assert (s + e)[1..] == s[1..] + e;
      NoMarkerBefore(s[1..], e);
    }
  }

  lemma RenderSplits(n: Numeral)
    ensures n.Render() == n.MantissaText() + n.ExponentText()
  {
  }

  lemma MarkerOfRender(n: Numeral)
    requires n.Valid()
    ensures IndexOfMarker(n.Render()) == |n.MantissaText()|
    ensures n.Render()[..|n.MantissaText()|] == n.MantissaText()
    ensures n.Render()[|n.MantissaText()|..] == n.ExponentText()
  {
    hide IndexOfMarker, Numeral.Render, Numeral.ExponentText;
    RenderSplits(n);
    ExponentMatches(n);
    NoMarkerBefore(n.MantissaText(), n.ExponentText());
  }

  lemma MantissaWithPoint(sign: string, whole: string, fraction: string)
    requires IsSign(sign) && AllDigits(whole) && AllDigits(fraction) && (whole != "" || fraction != "")
    ensures AllDigits(whole + fraction)
    ensures Mantissa(sign + (whole + (['.'] + fraction))) ==
            Some(((if sign == "-" then -1 else 1) * DigitsValue(whole + fraction), |fraction|))
  {
    hide DigitsValue;
    var unsigned := whole + (['.'] + fraction);
    assert unsigned[0] != '+' && unsigned[0] != '-';
    DropTheSign(sign, unsigned);
    IndexPastDigits(whole, ['.'] + fraction);
    assert unsigned[..|whole|] == whole;
    assert unsigned[|whole| + 1..] == fraction;
    assert (sign + unsigned)[0] == '-' <==> sign == "-";
  }

  lemma MantissaWithoutPoint(sign: string, whole: string)
    requires IsSign(sign) && AllDigits(whole) && whole != ""
    ensures Mantissa(sign + whole) == Some(((if sign == "-" then -1 else 1) * DigitsValue(whole), 0))
  {
    hide DigitsValue;
    DropTheSign(sign, whole);
    IndexPastDigits(whole, "");
    assert whole + "" == whole;
    assert (sign + whole)[0] == '-' <==> sign == "-";
  }

  lemma MantissaOfRender(n: Numeral)
    requires n.Valid()
    ensures AllDigits(n.whole + n.fraction)
    ensures Mantissa(n.MantissaText()) ==
            Some(((if n.sign == "-" then -1 else 1) * DigitsValue(n.whole + n.fraction), |n.fraction|))
  {
    hide DigitsValue, Mantissa;
    if n.point {
      MantissaWithPoint(n.sign, n.whole, n.fraction);
    } else {
      MantissaWithoutPoint(n.sign, n.whole);
      assert n.whole + n.fraction == n.whole;
      assert n.whole + "" == n.whole;
    }
  }

  lemma ParseSteps(raw: string, s: string, cut: string, exponent: int, numerator: int, scale: nat)
    requires TrimSpace(raw) == s && s != "" && !IsNonFinite(s) && Matches(s) && IndexOfMarker(s) == |cut|
        && s[..|cut|] == cut
    requires if |cut| < |s| then Atoi(s[|cut| + 1..]) == Some(exponent) else exponent == 0
    requires Mantissa(cut) == Some((numerator, scale))
    ensures ParseDecimal(raw) == if -1000 <= exponent <= 1000 then Some(Scaled(numerator, scale, exponent)) else None
  {
    hide TrimSpace, IsNonFinite, Matches, IndexOfMarker, Atoi, Mantissa, Scaled;
  }

  /** What a sign, two digit strings and an exponent amount to. */
  lemma NumeralValue(n: Numeral)
    requires n.Valid()
    ensures AllDigits(n.whole + n.fraction)
    ensures var numerator := (if n.sign == "-" then -1 else 1) * DigitsValue(n.whole + n.fraction);
            Scaled(numerator, |n.fraction|, n.ExponentValue()) == n.Value()
  {
    hide Scaled, TenTo, DigitsValue, FractionValue, Pow10, Numeral.ExponentValue;
    var m := if n.sign == "-" then -1 else 1;
    var magnitude := DigitsValue(n.whole) as real + FractionValue(n.fraction);
    JoinedDigits(n.whole, n.fraction);
    SignedProduct(m, magnitude, Pow10(|n.fraction|) as real, DigitsValue(n.whole + n.fraction));
    ScaledValue(m * DigitsValue(n.whole + n.fraction), |n.fraction|, n.ExponentValue(), m as real * magnitude);
  }

  lemma SignedProduct(m: int, magnitude: real, p: real, digits: int)
    requires magnitude * p == digits as real
    ensures m as real * magnitude * p == (m * digits) as real
  {
    RealProduct(m, digits);
    assert m as real * magnitude * p == m as real * (magnitude * p);
  }

  lemma ExponentOfRender(n: Numeral)
    requires n.Valid()
    ensures var s, k := n.Render(), |n.MantissaText()|;
            if k < |s| then Atoi(s[k + 1..]) == Some(n.ExponentValue()) else n.ExponentValue() == 0
  {
    hide Numeral.Render, Numeral.MantissaText, IndexOfMarker, DigitsValue, Atoi;
    var s, k := n.Render(), |n.MantissaText()|;
    MarkerOfRender(n);
    if n.exponent.Some? {
      var e := n.exponent.value;
      AtoiOfExponent(e.sign, e.digits);
      assert s[k..][1..] == s[k + 1..];
      assert s[k..][1..] == e.sign + e.digits;
    }
  }

  /**
    The reader on a numeral with white space around it: the exact value, unless
    the exponent is outside [-1000, 1000].
   */
  lemma ParseRendered(n: Numeral, left: string, right: string)
    requires n.Valid() && AllSpace(left) && AllSpace(right)
    ensures ParseDecimal(left + n.Render() + right) ==
            if -1000 <= n.ExponentValue() <= 1000 then Some(n.Value()) else None
  {
    hide ParseDecimal, TrimSpace, Numeral.Render, Numeral.Value, Numeral.ExponentValue;
    NumeralEnds(n);
    TrimPadded(left, n.Render(), right);
    ParseOfTrimmed(left + n.Render() + right, n);
  }

  // Acceptance

  lemma MatchedExponent(e: string) returns (exponent: Option<Exponent>)
    requires MatchesExponent(e)
    ensures Numeral("", "0", false, "", exponent).Valid()
    ensures Numeral("", "0", false, "", exponent).ExponentText() == e
  {
    if e == "" {
      exponent := None;
    } else {
      var digits := DropSign(e[1..]);
      var sign := if |digits| == |e[1..]| then "" else e[1..2];
      exponent := Some(Exponent(e[0], sign, digits));
      assert e == [e[0]] + e[1..];
      assert e[1..] == sign + digits;
    }
  }

  lemma SplitSign(s: string) returns (sign: string)
    ensures IsSign(sign) && s == sign + DropSign(s)
  {
    sign := if |DropSign(s)| == |s| then "" else s[..1];
  }

  lemma MatchedNumeral(s: string) returns (n: Numeral)
    requires Matches(s)
    ensures n.Valid() && n.Render() == s
  {
    hide Numeral.Valid, Numeral.Render, MatchesExponent;
    var t := DropSign(s);
    var sign := SplitSign(s);
    var k := DigitSpan(t);
    var u := t[k..];
    assert t == t[..k] + u;
    hide DropSign, DigitSpan, IsSign;
    if u != "" && u[0] == '.' {
      n := MatchedWithPoint(sign, t[..k], u);
    } else {
      n := MatchedWithoutPoint(sign, t[..k], u);
    }
  }

  lemma MatchedWithPoint(sign: string, whole: string, u: string) returns (n: Numeral)
    requires IsSign(sign) && AllDigits(whole) && u != "" && u[0] == '.'
    requires var m := DigitSpan(u[1..]); (whole != "" || m > 0) && MatchesExponent(u[1..][m..])
    ensures n.Valid() && n.Render() == sign + (whole + u)
  {
    var after := u[1..];
    var m := DigitSpan(after);
    var fraction, tail := after[..m], after[m..];
    hide Numeral.Valid, Numeral.Render, Numeral.ExponentText, MatchesExponent, IsSign;
    assert u == ['.'] + after && after == fraction + tail;
    var exponent := MatchedExponent(tail);
    n := PointNumeral(sign, whole, fraction, exponent);
  }

  lemma PointNumeral(sign: string, whole: string, fraction: string, exponent: Option<Exponent>) returns (n: Numeral)
    requires IsSign(sign) && AllDigits(whole) && AllDigits(fraction) && (whole != "" || fraction != "")
    requires Numeral("", "0", false, "", exponent).Valid()
    ensures var tail := Numeral("", "0", false, "", exponent).ExponentText();
            n.Valid() && n.Render() == sign + (whole + (['.'] + (fraction + tail)))
  {
    n := Numeral(sign, whole, true, fraction, exponent);
    assert n.ExponentText() == Numeral("", "0", false, "", exponent).ExponentText();
  }

  lemma MatchedWithoutPoint(sign: string, whole: string, u: string) returns (n: Numeral)
    requires IsSign(sign) && AllDigits(whole) && whole != "" && MatchesExponent(u)
    ensures n.Valid() && n.Render() == sign + (whole + u)
  {
    var exponent := MatchedExponent(u);
    n := Numeral(sign, whole, false, "", exponent);
    assert n.ExponentText() == u;
  }

  /** The trimmed text is a numeral whose exponent is in range. */
  ghost predicate IsBoundedNumeral(raw: string) {
    exists n: Numeral :: n.Valid() && n.Render() == TrimSpace(raw) && -1000 <= n.ExponentValue() <= 1000
  }

  /** The reader accepts exactly the grammar with exponents in [-1000, 1000]. */
  lemma ParseAcceptance(raw: string)
    ensures ParseDecimal(raw).Some? <==> IsBoundedNumeral(raw)
  {
    hide Matches, IndexOfMarker, Mantissa, Atoi, Scaled, TrimSpace, IsNonFinite;
    hide DigitsValue, Numeral.Render, Numeral.Value, Numeral.ExponentValue;
    var s := TrimSpace(raw);
    if ParseDecimal(raw).Some? {
      var n := MatchedNumeral(s);
      ParseOfTrimmed(raw, n);
    }
    if n: Numeral :| n.Valid() && n.Render() == TrimSpace(raw) && -1000 <= n.ExponentValue() <= 1000 {
      ParseOfTrimmed(raw, n);
    }
  }

  lemma ParseOfTrimmed(raw: string, n: Numeral)
    requires n.Valid() && n.Render() == TrimSpace(raw)
    ensures ParseDecimal(raw) == if -1000 <= n.ExponentValue() <= 1000 then Some(n.Value()) else None
  {
    hide ParseDecimal, IsNonFinite, Matches, IndexOfMarker, Mantissa, Atoi, Scaled, TrimSpace;
    hide DigitsValue, Numeral.Render, Numeral.MantissaText, Numeral.Value, Numeral.ExponentValue;
    NumeralEnds(n);
    NumeralFinite(n);
    RenderMatches(n);
    MarkerOfRender(n);
    MantissaOfRender(n);
    ExponentOfRender(n);
    NumeralValue(n);
    ParseSteps(raw, n.Render(), n.MantissaText(), n.ExponentValue(),
      (if n.sign == "-" then -1 else 1) * DigitsValue(n.whole + n.fraction), |n.fraction|);
  }
}
