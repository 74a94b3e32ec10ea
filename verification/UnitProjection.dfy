/**
  The 18-digit decimal projection of an exact rational
  (`canonicalUnitProjectionV1`): big.Rat's FloatString, trailing zeros and
  point trimmed, negative zero folded. Reading the projection back gives the
  rational rounded half away from zero.
 */
module UnitProjection {
  import opened Wrappers
  import opened Text
  import opened DecimalRational

  const PLACES: nat := 18
  const UNIT: int := 1_000_000_000_000_000_000

  function Magnitude(x: real): (m: real)
    ensures m >= 0.0
  {
    if x < 0.0 then -x else x
  }

  /** The whole and fractional digits of FloatString(18): division, remainder, round half up, carry. */
  function RoundedParts(x: real): (p: (nat, nat))
    ensures p.1 < UNIT
  {
    var m := Magnitude(x);
    var whole := m.Floor;
    var scaled := (m - whole as real) * UNIT as real;
    var fraction := scaled.Floor;
    if 2.0 * (scaled - fraction as real) >= 1.0 then
      if fraction + 1 >= UNIT then (whole + 1, fraction + 1 - UNIT) else (whole, fraction + 1)
    else (whole, fraction)
  }

  function FloatString(x: real): string {
    var (whole, fraction) := RoundedParts(x);
    (if x < 0.0 then "-" else "") + (Decimal(whole) + (['.'] + Fixed(fraction, PLACES)))
  }

  /** strings.TrimRight(s, c) for a single character. */
  function TrimTrailing(s: string, c: char): string {
    if s != "" && s[|s| - 1] == c then TrimTrailing(s[..|s| - 1], c) else s
  }

  /** `canonicalUnitProjectionV1`. */
  function Projection(x: real): string {
    var encoded := TrimTrailing(TrimTrailing(FloatString(x), '0'), '.');
    if encoded == "" || encoded == "-0" then "0" else encoded
  }

  // Rounding

  /** |x| in units of 10^-18, rounded half up. */
  function RoundedUnits(x: real): (n: nat) {
    (Magnitude(x) * UNIT as real + 0.5).Floor
  }

  /** x rounded to 18 decimals, half away from zero. */
  function Rounded(x: real): real {
    (if x < 0.0 then -1.0 else 1.0) * (RoundedUnits(x) as real / UNIT as real)
  }

  /** Within half a unit in the last place, and a tie moves away from zero. */
  lemma RoundedIsNearest(x: real)
    ensures Magnitude(Rounded(x) - x) <= 0.5 / UNIT as real
    ensures Magnitude(Rounded(x) - x) == 0.5 / UNIT as real ==> Magnitude(Rounded(x)) > Magnitude(x)
  {
    var m, n := Magnitude(x), RoundedUnits(x);
    assert n as real <= m * UNIT as real + 0.5 < n as real + 1.0;
    var y := n as real / UNIT as real;
    assert y * UNIT as real == n as real;
    assert -0.5 < (y - m) * UNIT as real <= 0.5;
  }

  /** A rational with at most 18 decimals is its own rounding. */
  lemma RoundedIsExact(x: real, units: int)
    requires x * UNIT as real == units as real
    ensures Rounded(x) == x
  {
    var n := if units < 0 then -units else units;
    assert Magnitude(x) * UNIT as real == n as real;
    assert (n as real + 0.5).Floor == n;
  }

  lemma RoundedUnitsAgain(x: real)
    ensures RoundedUnits(Rounded(x)) == RoundedUnits(x)
    ensures Rounded(x) < 0.0 <==> x < 0.0 && RoundedUnits(x) > 0
  {
    var n := RoundedUnits(x);
    var y := n as real / UNIT as real;
    assert y * UNIT as real == n as real;
    assert Magnitude(Rounded(x)) == y;
    assert (n as real + 0.5).Floor == n;
  }

  /** The digits printed are the rounded units split at the point. */
  lemma PartsAreUnits(x: real)
    ensures var (whole, fraction) := RoundedParts(x); whole * UNIT + fraction == RoundedUnits(x)
  {
    var m := Magnitude(x);
    var whole := m.Floor;
    var scaled := (m - whole as real) * UNIT as real;
    assert m * UNIT as real == (whole * UNIT) as real + scaled;
  }

  // The shape of the printed text

  lemma {:induction false} TrimAppended(s: string, t: string, c: char)
    ensures TrimTrailing(s + t, c) == if TrimTrailing(t, c) == "" then TrimTrailing(s, c) else s + TrimTrailing(t, c)
    decreases |t|
  {
    if t == "" {
      assert s + t == s;
    } else if t[|t| - 1] == c {
      assert (s + t)[..|s + t| - 1] == s + t[..|t| - 1];
      TrimAppended(s, t[..|t| - 1], c);
    }
  }

  lemma {:induction false} TrimPrefix(s: string, c: char)
    ensures |TrimTrailing(s, c)| <= |s| && TrimTrailing(s, c) == s[..|TrimTrailing(s, c)|]
    ensures TrimTrailing(s, c) != "" ==> TrimTrailing(s, c)[|TrimTrailing(s, c)| - 1] != c
  {
    if s != "" && s[|s| - 1] == c {
      TrimPrefix(s[..|s| - 1], c);
    }
  }

  /** Fraction digits without trailing zeros. */
  function FractionDigits(fraction: nat): (s: string)
    ensures AllDigits(s)
    ensures s != "" ==> s[|s| - 1] != '0'
  {
    var f := Fixed(fraction, PLACES);
    TrimPrefix(f, '0');
    TrimTrailing(f, '0')
  }

  /** The canonical numeral of ±n units. */
  function UnitsNumeral(negative: bool, n: nat): (numeral: Numeral)
    ensures numeral.Valid()
  {
    var f := FractionDigits(n % UNIT);
    Numeral(if negative then "-" else "", Decimal(n / UNIT), f != "", f, None)
  }

  lemma TrimmedText(sign: string, whole: nat, fraction: nat)
    ensures var encoded := sign + (Decimal(whole) + (['.'] + Fixed(fraction, PLACES)));
            var f := FractionDigits(fraction);
            TrimTrailing(TrimTrailing(encoded, '0'), '.') ==
            sign + (Decimal(whole) + if f != "" then ['.'] + f else "")
  {
    hide Decimal, Fixed;
    var w, f := Decimal(whole), FractionDigits(fraction);
    var digits := Fixed(fraction, PLACES);
    var head := sign + (w + ['.']);
    assert sign + (w + (['.'] + digits)) == head + digits;
    TrimAppended(head, digits, '0');
    if f == "" {
      assert TrimTrailing(head, '0') == head;
      assert head[..|head| - 1] == sign + w;
      assert (sign + w)[|sign + w| - 1] == w[|w| - 1];
      assert TrimTrailing(sign + w, '.') == sign + w;
      assert w + "" == w;
    } else {
      assert head + f == sign + (w + (['.'] + f));
      assert (head + f)[|head + f| - 1] == f[|f| - 1];
    }
  }

  lemma WholeAndFraction(whole: nat, fraction: nat)
    requires fraction < UNIT
    ensures (whole * UNIT + fraction) / UNIT == whole && (whole * UNIT + fraction) % UNIT == fraction
  {
  }

  lemma {:induction false} TrimZerosOfDigits(s: string)
    requires AllDigits(s)
    ensures TrimTrailing(s, '0') == "" <==> DigitsValue(s) == 0
    ensures AllDigits(TrimTrailing(s, '0')) && FractionValue(TrimTrailing(s, '0')) == FractionValue(s)
    decreases |s|
  {
    if s != "" && s[|s| - 1] == '0' {
      var init := s[..|s| - 1];
      TrimZerosOfDigits(init);
      TrailingZero(init);
      assert s == init + ['0'];
    } else if s != "" {
      assert DigitOf(s[|s| - 1]) > 0;
    }
  }

  lemma {:induction false} TrailingZero(s: string)
    requires AllDigits(s)
    ensures AllDigits(s + ['0']) && FractionValue(s + ['0']) == FractionValue(s)
  {
    if s == "" {
      assert s + ['0'] == ['0'] && ['0'][1..] == "";
    } else {
      TrailingZero(s[1..]);
      assert (s + ['0'])[1..] == s[1..] + ['0'];
    }
  }

  lemma UnitPower()
    ensures Pow10(PLACES) == UNIT
  {
    assert Pow10(6) == 1_000_000;
    assert Pow10(12) == 1_000_000 * Pow10(6) by {
      PowSum(6, 6);
    }
    PowSum(6, 12);
  }

  lemma FractionDigitsValue(fraction: nat)
    requires fraction < UNIT
    ensures FractionDigits(fraction) == "" <==> fraction == 0
    ensures FractionValue(FractionDigits(fraction)) == fraction as real / UNIT as real
  {
    hide Fixed, Pow10, TrimTrailing, FractionValue, DigitsValue;
    UnitPower();
    var f := Fixed(fraction, PLACES);
    FixedValue(fraction, PLACES);
    TrimZerosOfDigits(f);
    JoinedDigits("", f);
    assert "" + f == f;
    assert DigitsValue("") == 0 by {
      EmptyDigits();
    }
    QuotientUnique(fraction as real, UNIT as real, FractionValue(f));
  }

  lemma EmptyDigits()
    ensures DigitsValue("") == 0
  {
  }

  lemma ZeroText(whole: nat, fraction: nat)
    requires fraction < UNIT
    ensures var f := FractionDigits(fraction);
            var text := Decimal(whole) + if f != "" then ['.'] + f else "";
            && text != "" && text[0] != '-'
            && (text == "0" <==> whole == 0 && fraction == 0)
  {
    hide FractionDigits, FractionValue;
    FractionDigitsValue(fraction);
    DecimalValue(whole);
    var w, f := Decimal(whole), FractionDigits(fraction);
    assert w[0] != '-';
    if f == "" {
      assert w + "" == w;
      assert "0"[..0] == "";
    }
  }

  /** What is printed is the canonical numeral of the rounded units; zero loses its sign. */
  lemma UnitsText(negative: bool, whole: nat, fraction: nat)
    requires fraction < UNIT
    ensures var f := FractionDigits(fraction);
            UnitsNumeral(negative, whole * UNIT + fraction).Render() ==
            (if negative then "-" else "") + (Decimal(whole) + if f != "" then ['.'] + f else "")
  {
    hide Decimal, FractionDigits, Numeral.Render;
    WholeAndFraction(whole, fraction);
    PlainRender(if negative then "-" else "", whole, fraction);
  }

  lemma ProjectionText(x: real)
    ensures Projection(x) == UnitsNumeral(x < 0.0 && RoundedUnits(x) > 0, RoundedUnits(x)).Render()
  {
    hide FloatString, TrimTrailing, Fixed, Decimal, FractionDigits, RoundedUnits, RoundedParts, Numeral.Render,
      UnitsNumeral;
    var (whole, fraction) := RoundedParts(x);
    PartsAreUnits(x);
    FloatStringParts(x);
    var f := FractionDigits(fraction);
    var text := Decimal(whole) + if f != "" then ['.'] + f else "";
    TrimmedText(if x < 0.0 then "-" else "", whole, fraction);
    UnitsText(x < 0.0 && RoundedUnits(x) > 0, whole, fraction);
    ZeroText(whole, fraction);
    FoldedSign(x < 0.0, text);
    assert whole * UNIT + fraction > 0 <==> !(whole == 0 && fraction == 0);
  }

  /** Negative zero is folded, and nothing else. */
  lemma FoldedSign(negative: bool, text: string)
    requires text != "" && text[0] != '-'
    ensures var encoded := (if negative then "-" else "") + text;
            (if encoded == "" || encoded == "-0" then "0" else encoded) ==
            (if negative && text != "0" then "-" else "") + text
  {
    assert "" + text == text;
    if negative {
      assert ("-" + text)[1..] == text && "-0"[1..] == "0";
    } else {
      assert "-0"[0] == '-';
    }
  }

  lemma FloatStringParts(x: real)
    ensures var (whole, fraction) := RoundedParts(x);
            FloatString(x) == (if x < 0.0 then "-" else "") + (Decimal(whole) + (['.'] + Fixed(fraction, PLACES)))
  {
  }

  lemma PlainRender(sign: string, whole: nat, fraction: nat)
    requires IsSign(sign)
    ensures var f := FractionDigits(fraction);
            Numeral(sign, Decimal(whole), f != "", f, None).Render() ==
            sign + (Decimal(whole) + if f != "" then ['.'] + f else "")
  {
    hide Decimal, FractionDigits;
    var f := FractionDigits(fraction);
    assert f + "" == f;
  }

  // The laws

  lemma UnitsNumeralValue(negative: bool, n: nat)
    ensures UnitsNumeral(negative, n).Value() == (if negative then -1.0 else 1.0) * (n as real / UNIT as real)
  {
    hide Decimal, FractionDigits, FractionValue, DigitsValue;
    FractionDigitsValue(n % UNIT);
    DecimalValue(n / UNIT);
    assert TenTo(0) == 1.0;
    assert n == n / UNIT * UNIT + n % UNIT;
    var w, f := n / UNIT, n % UNIT;
    assert w as real + f as real / UNIT as real == n as real / UNIT as real;
  }

  /** Reading the projection back gives the rounded value. */
  lemma ProjectionRoundTrip(x: real)
    ensures ParseDecimal(Projection(x)) == Some(Rounded(x))
  {
    hide Projection, ParseDecimal, RoundedUnits, TrimSpace, Numeral.Render, Numeral.Value;
    var n := RoundedUnits(x);
    var numeral := UnitsNumeral(x < 0.0 && n > 0, n);
    ProjectionText(x);
    TrimOfRender(numeral);
    ParseOfTrimmed(Projection(x), numeral);
    UnitsNumeralValue(x < 0.0 && n > 0, n);
    assert n == 0 ==> n as real / UNIT as real == 0.0;
  }

  /** Printing what was read back changes nothing, and two rationals print alike exactly when they round alike. */
  lemma ProjectionCanonical(x: real, y: real)
    ensures Projection(Rounded(x)) == Projection(x)
    ensures Projection(x) == Projection(y) <==> Rounded(x) == Rounded(y)
  {
    hide Projection, ParseDecimal, RoundedUnits, Rounded, UnitsNumeral, Numeral.Render;
    ProjectionText(x);
    ProjectionText(y);
    ProjectionText(Rounded(x));
    ProjectionText(Rounded(y));
    RoundedUnitsAgain(x);
    RoundedUnitsAgain(y);
    ProjectionRoundTrip(x);
    ProjectionRoundTrip(y);
  }

  /**
    The shortest text of its value: a point only before a fraction, which does not
    end in zero, and no leading zero before other digits.
   */
  lemma ProjectionIsShort(x: real)
    ensures var s := Projection(x);
            var digits := if s != "" && s[0] == '-' then s[1..] else s;
            && digits != "" && IsDigit(digits[0])
            && ('.' in s ==> IsDigit(s[|s| - 1]) && s[|s| - 1] != '0')
            && (|digits| > 1 && digits[0] == '0' ==> digits[1] == '.')
  {
    hide Projection, RoundedUnits;
    ProjectionText(x);
    var n := RoundedUnits(x);
    var whole, f := Decimal(n / UNIT), FractionDigits(n % UNIT);
    WholeDigits(n / UNIT);
    var s := Projection(x);
    var digits := whole + if f != "" then ['.'] + (f + "") else "";
    assert s == (if x < 0.0 && n > 0 then "-" else "") + digits;
    if f != "" {
      assert s[|s| - 1] == f[|f| - 1] && digits[|whole|] == '.';
    } else {
      assert forall c <- s :: c == '-' || IsDigit(c);
    }
  }

  lemma {:induction false} WholeDigits(n: nat)
    ensures Decimal(n)[0] == '0' ==> |Decimal(n)| == 1
  {
    if n >= 10 {
      WholeDigits(n / 10);
      assert Decimal(n)[0] == Decimal(n / 10)[0];
      assert n / 10 < 10 ==> Decimal(n / 10)[0] == DigitChar(n / 10);
    }
  }

  /** A minus sign is printed exactly for negative rounded values, so never "-0". */
  lemma ProjectionSign(x: real)
    ensures Projection(x) != "" && (Projection(x)[0] == '-' <==> Rounded(x) < 0.0)
  {
    hide Projection, RoundedUnits, Rounded, FractionDigits;
    ProjectionText(x);
    RoundedUnitsAgain(x);
  }
}
