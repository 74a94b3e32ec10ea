/**
  The grammar of JSON texts (RFC 8259 sections 2 to 7), written as a renderer:
  white space between tokens, every spelling of a character in a string, numbers
  from their parts. The reader accepts exactly the rendered texts and gives the
  documents they mean.
 */
module JsonForms {
  import opened Wrappers
  import opened JsonText
  import Text

  // White space

  predicate Blank(s: string) {
    forall i | 0 <= i < |s| :: s[i] in {' ', '\t', '\n', '\r'}
  }

  lemma {:induction false} SkipBlank(blank: string, rest: string)
    requires Blank(blank)
    ensures SkipSpace(blank + rest) == SkipSpace(rest)
  {
    if blank == "" {
      assert blank + rest == rest;
    } else {
      assert (blank + rest)[1..] == blank[1..] + rest;
      SkipBlank(blank[1..], rest);
    }
  }

  lemma {:induction false} SkippedIsBlank(s: string) returns (blank: string)
    ensures Blank(blank) && s == blank + SkipSpace(s)
  {
    if s != "" && IsSpace(s[0]) {
      var more := SkippedIsBlank(s[1..]);
      blank := [s[0]] + more;
      assert s == [s[0]] + s[1..];
    } else {
      blank := "";
    }
  }

  // Characters of strings

  /** The digit of this value, in either case. */
  predicate HexIs(c: char, v: nat) {
    v < 16 && (c == "0123456789abcdef"[v] || c == "0123456789ABCDEF"[v])
  }

  /** Four hexadecimal digits and the code unit they stand for. */
  datatype Unit = Unit(digits: string, a: nat, b: nat, c: nat, d: nat) {
    predicate Valid() {
      |digits| == 4 && HexIs(digits[0], a) && HexIs(digits[1], b) && HexIs(digits[2], c) && HexIs(digits[3], d)
    }

    function Value(): nat {
      ((a * 16 + b) * 16 + c) * 16 + d
    }
  }

  /** How one character is spelled. */
  datatype Spelling =
    | Raw(char)
    | Short(letter: char)
    | Escaped(unit: Unit)
    | Paired(high: Unit, low: Unit)
  {
    predicate Valid() {
      match this
      case Raw(c) => c >= ' ' && c != '\"' && c != '\\'
      case Short(letter) => letter in {'\"', '\\', '/', 'b', 'f', 'n', 'r', 't'}
      case Escaped(unit) => unit.Valid()
      case Paired(high, low) =>
        high.Valid() && low.Valid() && 0xD800 <= high.Value() < 0xDC00 && 0xDC00 <= low.Value() < 0xE000
    }

    function Text(): string {
      match this
      case Raw(c) => [c]
      case Short(letter) => ['\\', letter]
      case Escaped(unit) => "\\u" + unit.digits
      case Paired(high, low) => "\\u" + high.digits + ("\\u" + low.digits)
    }

    /** A surrogate that stands alone reads as the replacement character. */
    function Meaning(): char
      requires Valid()
    {
      match this
      case Raw(c) => c
      case Short(letter) =>
        if letter == 'b' then 8 as char else if letter == 'f' then 12 as char else if letter == 'n' then '\n'
        else if letter == 'r' then '\r' else if letter == 't' then '\t' else letter
      case Escaped(unit) =>
        UnitBound(unit);
        if 0xD800 <= unit.Value() < 0xE000 then 0xFFFD as char else unit.Value() as char
      case Paired(high, low) => (0x10000 + 0x400 * (high.Value() - 0xD800) + (low.Value() - 0xDC00)) as char
    }
  }

  lemma UnitBound(unit: Unit)
    requires unit.Valid()
    ensures unit.Value() < 0x10000
  {
  }

  /** Two escapes next to each other that a reader takes for a pair. */
  predicate ReadsAsPair(a: Spelling, b: Spelling) {
    a.Escaped? && b.Escaped? && 0xD800 <= a.unit.Value() < 0xDC00 && 0xDC00 <= b.unit.Value() < 0xE000
  }

  predicate Spelled(body: seq<Spelling>) {
    && (forall i | 0 <= i < |body| :: body[i].Valid())
    && (forall i | 0 <= i < |body| - 1 :: !ReadsAsPair(body[i], body[i + 1]))
  }

  /** A string body with its closing quote, and what follows. */
  function BodyText(body: seq<Spelling>, rest: string): string {
    if body == [] then ['\"'] + rest else body[0].Text() + BodyText(body[1..], rest)
  }

  function BodyMeaning(body: seq<Spelling>): string
    requires forall i | 0 <= i < |body| :: body[i].Valid()
  {
    if body == [] then "" else [body[0].Meaning()] + BodyMeaning(body[1..])
  }

  // Reading strings

  lemma HexRead(c: char, v: nat)
    requires HexIs(c, v)
    ensures HexValue(c) == Some(v)
  {
  }

  lemma HexOf(c: char) returns (v: nat)
    requires HexValue(c).Some?
    ensures HexIs(c, v) && HexValue(c) == Some(v)
  {
    v := HexValue(c).value;
  }

  lemma UnitRead(unit: Unit, rest: string)
    requires unit.Valid()
    ensures CodeUnit(unit.digits + rest) == Some(unit.Value())
  {
    hide HexIs, HexValue;
    var s := unit.digits + rest;
    assert s[0] == unit.digits[0] && s[1] == unit.digits[1] && s[2] == unit.digits[2] && s[3] == unit.digits[3];
    HexRead(s[0], unit.a);
    HexRead(s[1], unit.b);
    HexRead(s[2], unit.c);
    HexRead(s[3], unit.d);
  }

  lemma UnitOf(s: string) returns (unit: Unit)
    requires CodeUnit(s).Some?
    ensures unit.Valid() && CodeUnit(s) == Some(unit.Value()) && s == unit.digits + s[4..]
  {
    hide HexIs, HexValue;
    var a := HexOf(s[0]);
    var b := HexOf(s[1]);
    var c := HexOf(s[2]);
    var d := HexOf(s[3]);
    unit := Unit(s[..4], a, b, c, d);
    UnitRead(unit, s[4..]);
  }

  /** No low surrogate is spelled at the start of this text. */
  predicate NoLow(rest: string) {
    LowSurrogate(rest).None?
  }

  lemma ReadSpelling(p: Spelling, rest: string)
    requires p.Valid()
    requires p.Escaped? && 0xD800 <= p.unit.Value() < 0xDC00 ==> NoLow(rest)
    ensures ReadChar(p.Text() + rest) == Some((p.Meaning(), rest))
  {
    match p
    case Raw(c) => assert (p.Text() + rest)[1..] == rest;
    case Short(letter) => assert (p.Text() + rest)[2..] == rest;
    case Escaped(unit) => ReadEscaped(unit, rest);
    case Paired(high, low) => ReadPaired(high, low, rest);
  }

  lemma ReadEscaped(unit: Unit, rest: string)
    requires unit.Valid()
    requires 0xD800 <= unit.Value() < 0xDC00 ==> NoLow(rest)
    ensures ReadChar(Escaped(unit).Text() + rest) == Some((Escaped(unit).Meaning(), rest))
  {
    UnitText(unit);
    UnitBound(unit);
    UnitRead(unit, rest);
    hide CodeUnit, Unit.Valid, Unit.Value, LowSurrogate;
    var s := "\\u" + unit.digits + rest;
    assert s[2..] == unit.digits + rest && s[6..] == rest;
  }

  lemma LowRead(low: Unit, rest: string)
    requires low.Valid() && 0xDC00 <= low.Value() < 0xE000
    ensures LowSurrogate("\\u" + low.digits + rest) == Some(low.Value())
  {
    UnitText(low);
    UnitRead(low, rest);
    hide CodeUnit, Unit.Valid, Unit.Value;
    assert ("\\u" + low.digits + rest)[2..] == low.digits + rest;
  }

  lemma EscapeSplit(digits: string, rest: string)
    requires |digits| == 4
    ensures var s := "\\u" + digits + rest;
            |s| >= 6 && s[0] == '\\' && s[1] == 'u' && s[2..] == digits + rest && s[6..] == rest
  {
  }

  lemma ReadPaired(high: Unit, low: Unit, rest: string)
    requires Paired(high, low).Valid()
    ensures ReadChar(Paired(high, low).Text() + rest) == Some((Paired(high, low).Meaning(), rest))
  {
    UnitText(high);
    UnitText(low);
    var second := "\\u" + low.digits + rest;
    UnitRead(high, second);
    LowRead(low, rest);
    EscapeSplit(high.digits, second);
    EscapeSplit(low.digits, rest);
    hide ReadChar, CodeUnit, Unit.Valid, Unit.Value, LowSurrogate;
    var s := "\\u" + high.digits + second;
    PairedText(high, low, rest);
    assert s[12..] == s[6..][6..];
    ReadPair(s, high.Value(), low.Value(), rest);
  }

  lemma PairedText(high: Unit, low: Unit, rest: string)
    ensures Paired(high, low).Text() + rest == "\\u" + high.digits + ("\\u" + low.digits + rest)
  {
  }

  lemma ReadPair(s: string, high: nat, low: nat, rest: string)
    requires |s| >= 12 && s[0] == '\\' && s[1] == 'u' && CodeUnit(s[2..]) == Some(high) && 0xD800 <= high < 0xDC00
    requires LowSurrogate(s[6..]) == Some(low) && s[12..] == rest
    ensures ReadChar(s) == Some(((0x10000 + 0x400 * (high - 0xD800) + (low - 0xDC00)) as char, rest))
  {
    hide CodeUnit, LowSurrogate;
  }

  lemma UnitText(unit: Unit)
    requires unit.Valid()
    ensures |unit.digits| == 4
  {
  }

  lemma EscapeAhead(unit: Unit, rest: string)
    requires unit.Valid()
    ensures NoLow("\\u" + unit.digits + rest) <==> !(0xDC00 <= unit.Value() < 0xE000)
  {
    UnitText(unit);
    UnitRead(unit, rest);
    EscapeSplit(unit.digits, rest);
    hide CodeUnit, Unit.Valid, Unit.Value;
  }

  lemma OtherAhead(s: string)
    requires s != "" && (s[0] != '\\' || (|s| > 1 && s[1] != 'u'))
    ensures NoLow(s)
  {
  }

  /** Which text starts with a spelled low surrogate. */
  lemma LowAhead(body: seq<Spelling>, rest: string)
    requires Spelled(body)
    ensures NoLow(BodyText(body, rest)) <==>
            !(body != [] && body[0].Escaped? && 0xDC00 <= body[0].unit.Value() < 0xE000)
  {
    hide NoLow, Unit.Valid, Unit.Value;
    var s := BodyText(body, rest);
    if body == [] {
      OtherAhead(s);
    } else {
      assert body[0].Valid();
      var more := BodyText(body[1..], rest);
      match body[0]
      case Escaped(unit) => EscapeAhead(unit, more);
      case Paired(high, low) =>
        EscapeAhead(high, "\\u" + low.digits + more);
        PairedText(high, low, more);
      case Raw(c) => OtherAhead(s);
      case Short(letter) => OtherAhead(s);
    }
  }

  lemma TailSpelled(body: seq<Spelling>)
    requires Spelled(body) && body != []
    ensures Spelled(body[1..]) && body[0].Valid() && (|body| > 1 ==> !ReadsAsPair(body[0], body[1]))
  {
    var tail := body[1..];
    assert forall i | 0 <= i < |tail| :: tail[i] == body[i + 1];
  }

  lemma {:induction false} BodyRead(body: seq<Spelling>, rest: string)
    requires Spelled(body)
    ensures ReadString(BodyText(body, rest)) == Some((BodyMeaning(body), rest))
  {
    hide Spelled, ReadChar, Spelling.Valid, Spelling.Meaning, NoLow;
    if body != [] {
      var p, more := body[0], BodyText(body[1..], rest);
      TailSpelled(body);
      BodyRead(body[1..], rest);
      LowAhead(body[1..], rest);
      ReadSpelling(p, more);
      SpellingStarts(p);
    } else {
      assert (['\"'] + rest)[1..] == rest;
    }
  }

  lemma SpellingStarts(p: Spelling)
    requires p.Valid()
    ensures p.Text() != "" && p.Text()[0] != '\"'
  {
  }

  /** The spelling of the character that is read. */
  lemma SpellingOf(s: string) returns (p: Spelling)
    requires ReadChar(s).Some?
    ensures p.Valid() && s == p.Text() + ReadChar(s).value.1 && p.Meaning() == ReadChar(s).value.0
    ensures p.Escaped? && 0xD800 <= p.unit.Value() < 0xDC00 ==> NoLow(ReadChar(s).value.1)
  {
    if s[0] != '\\' {
      p := Raw(s[0]);
      assert s == [s[0]] + s[1..];
    } else if s[1] != 'u' {
      p := Short(s[1]);
      assert s == [s[0], s[1]] + s[2..];
    } else {
      p := EscapeOf(s);
    }
  }

  lemma EscapeOf(s: string) returns (p: Spelling)
    requires ReadChar(s).Some? && s[0] == '\\' && s[1] == 'u'
    ensures p.Valid() && s == p.Text() + ReadChar(s).value.1 && p.Meaning() == ReadChar(s).value.0
    ensures p.Escaped? && 0xD800 <= p.unit.Value() < 0xDC00 ==> NoLow(ReadChar(s).value.1)
  {
    var unit := UnitOf(s[2..]);
    UnitText(unit);
    hide CodeUnit, Unit.Valid, Unit.Value;
    assert s == "\\u" + s[2..] && s[2..][4..] == s[6..];
    assert s == "\\u" + unit.digits + s[6..];
    if 0xD800 <= unit.Value() < 0xDC00 && !NoLow(s[6..]) {
      var t := s[6..];
      var low := UnitOf(t[2..]);
      UnitText(low);
      assert t == "\\u" + t[2..] && t[2..][4..] == t[6..] == s[12..];
      assert t == "\\u" + low.digits + s[12..];
      p := Paired(unit, low);
      ReadPaired(unit, low, s[12..]);
      assert p.Text() + s[12..] == "\\u" + unit.digits + ("\\u" + low.digits + s[12..]);
    } else {
      p := Escaped(unit);
      ReadEscaped(unit, s[6..]);
    }
  }

  lemma {:induction false} BodyOf(s: string) returns (body: seq<Spelling>)
    requires ReadString(s).Some?
    ensures Spelled(body) && s == BodyText(body, ReadString(s).value.1) && BodyMeaning(body) == ReadString(s).value.0
    decreases |s|
  {
    hide ReadChar, Spelling.Valid, Spelling.Meaning, Spelling.Text, NoLow;
    if s != "" && s[0] == '\"' {
      body := [];
      assert s == ['\"'] + s[1..];
    } else {
      var p := SpellingOf(s);
      var rest := ReadChar(s).value.1;
      var more := BodyOf(rest);
      LowAhead(more, ReadString(rest).value.1);
      body := [p] + more;
      assert body[1..] == more;
      Prepended(p, more);
    }
  }

  lemma Prepended(p: Spelling, more: seq<Spelling>)
    requires p.Valid() && Spelled(more) && (more != [] ==> !ReadsAsPair(p, more[0]))
    ensures Spelled([p] + more)
  {
    hide Spelling.Valid, ReadsAsPair;
    var body := [p] + more;
    assert forall i | 1 <= i < |body| :: body[i] == more[i - 1];
  }

  // Numbers

  /** An exponent as it is written: its letter, a sign or none, its digits. */
  datatype Exponent = Exponent(letter: char, sign: string, digits: string)

  datatype Numeral = Numeral(negative: bool, whole: string, fraction: Option<string>, exponent: Option<Exponent>) {
    predicate Valid() {
      && whole != "" && Text.AllDigits(whole) && (whole[0] == '0' ==> |whole| == 1)
      && (fraction.Some? ==> fraction.value != "" && Text.AllDigits(fraction.value))
      && (exponent.Some? ==>
            && exponent.value.letter in {'e', 'E'} && exponent.value.sign in {"", "+", "-"}
            && exponent.value.digits != "" && Text.AllDigits(exponent.value.digits))
    }

    function ExponentText(): string {
      match exponent
      case None => ""
      case Some(e) => [e.letter] + (e.sign + e.digits)
    }

    function TailText(): string {
      match fraction
      case None => ExponentText()
      case Some(digits) => ['.'] + (digits + ExponentText())
    }

    function Render(): string {
      (if negative then "-" else "") + (whole + TailText())
    }
  }

  lemma {:induction false} DigitsFrom(state: NumberState, digits: string, rest: string)
    requires Text.AllDigits(digits) && (state.Integer? || state.Fraction? || state.ExpDigits?)
    ensures NumberFrom(state, digits + rest) == NumberFrom(state, rest)
  {
    if digits == "" {
      assert digits + rest == rest;
    } else {
      assert Text.IsDigit(digits[0]) && (digits + rest)[1..] == digits[1..] + rest;
      DigitsFrom(state, digits[1..], rest);
    }
  }

  /** The digits at the front, and a text that goes on with something else. */
  lemma {:induction false} DigitsOf(state: NumberState, text: string) returns (digits: string, rest: string)
    requires NumberFrom(state, text) && (state.Integer? || state.Fraction? || state.ExpDigits?)
    ensures Text.AllDigits(digits) && text == digits + rest && NumberFrom(state, rest)
    ensures rest == "" || !Text.IsDigit(rest[0])
    decreases |text|
  {
    if text != "" && Text.IsDigit(text[0]) {
      digits, rest := DigitsOf(state, text[1..]);
      assert text == [text[0]] + text[1..];
      digits := [text[0]] + digits;
    } else {
      digits, rest := "", text;
    }
  }

  /** One character of a number. */
  lemma OneChar(state: NumberState, c: char, rest: string)
    ensures NumberFrom(state, [c] + rest) <==>
            NumberStep(state, c).Some? && NumberFrom(NumberStep(state, c).value, rest)
  {
    assert ([c] + rest)[1..] == rest;
  }

  /** One or more digits to the end. */
  lemma LastDigits(state: NumberState, next: NumberState, digits: string, rest: string)
    requires digits != "" && Text.AllDigits(digits) && NumberFrom(next, rest)
    requires next.Integer? || next.Fraction? || next.ExpDigits?
    requires NumberStep(state, digits[0]) == Some(next)
    ensures NumberFrom(state, digits + rest)
  {
    hide NumberFrom, NumberStep;
    DigitsFrom(next, digits[1..], rest);
    OneChar(state, digits[0], digits[1..] + rest);
    assert digits + rest == [digits[0]] + (digits[1..] + rest);
  }

  lemma NumberEnds()
    ensures NumberFrom(ExpDigits, "") && NumberFrom(Fraction, "") && NumberFrom(Integer, "") && NumberFrom(Zero, "")
  {
  }

  lemma ExponentFrom(n: Numeral, state: NumberState)
    requires n.Valid() && (state.Zero? || state.Integer? || state.Fraction?)
    ensures NumberFrom(state, n.ExponentText())
  {
    NumberEnds();
    hide NumberFrom;
    if n.exponent.Some? {
      var e := n.exponent.value;
      assert Text.IsDigit(e.digits[0]);
      assert e.digits + "" == e.digits;
      if e.sign == "" {
        LastDigits(Exp, ExpDigits, e.digits, "");
        assert e.sign + e.digits == e.digits;
      } else {
        LastDigits(ExpSign, ExpDigits, e.digits, "");
        OneChar(Exp, e.sign[0], e.digits);
        assert e.sign + e.digits == [e.sign[0]] + e.digits;
      }
      OneChar(state, e.letter, e.sign + e.digits);
    }
  }

  lemma TailFrom(n: Numeral, state: NumberState)
    requires n.Valid() && (state.Zero? || state.Integer?)
    ensures NumberFrom(state, n.TailText())
  {
    hide Numeral.ExponentText, NumberFrom;
    match n.fraction
    case None => ExponentFrom(n, state);
    case Some(digits) =>
      assert Text.IsDigit(digits[0]);
      ExponentFrom(n, Fraction);
      LastDigits(Point, Fraction, digits, n.ExponentText());
      OneChar(state, '.', digits + n.ExponentText());
  }

  /** A number written from its parts is a number. */
  lemma NumeralsAreNumbers(n: Numeral)
    requires n.Valid()
    ensures ValidNumber(n.Render())
  {
    hide Numeral.TailText, NumberFrom;
    var start, t := if n.negative then Minus else Begin, n.whole + n.TailText();
    assert Text.IsDigit(n.whole[0]);
    if n.whole[0] == '0' {
      TailFrom(n, Zero);
      OneChar(start, '0', n.TailText());
      assert t == ['0'] + n.TailText();
    } else {
      TailFrom(n, Integer);
      LastDigits(start, Integer, n.whole, n.TailText());
    }
    if n.negative {
      OneChar(Begin, '-', t);
      assert n.Render() == ['-'] + t;
    } else {
      assert n.Render() == t;
    }
  }

  lemma ExponentOf(state: NumberState, text: string) returns (exponent: Option<Exponent>)
    requires NumberFrom(state, text) && (state.Zero? || state.Integer? || state.Fraction?)
    requires text == "" || (!Text.IsDigit(text[0]) && text[0] != '.')
    ensures var n := Numeral(false, "0", None, exponent); n.Valid() && text == n.ExponentText()
  {
    if text == "" {
      exponent := None;
    } else {
      var t := text[1..];
      assert text == [text[0]] + t;
      OneChar(state, text[0], t);
      NeedsMore();
      hide NumberFrom;
      assert t == [t[0]] + t[1..];
      OneChar(Exp, t[0], t[1..]);
      if t[0] == '+' || t[0] == '-' {
        var digits := SomeDigits(ExpSign, t[1..]);
        exponent := Some(Exponent(text[0], [t[0]], digits));
      } else {
        var digits := SomeDigits(Exp, t);
        exponent := Some(Exponent(text[0], "", digits));
        assert "" + digits == digits;
      }
    }
  }

  lemma NeedsMore()
    ensures !NumberFrom(Exp, "") && !NumberFrom(ExpSign, "") && !NumberFrom(Point, "")
  {
  }

  /** The digits of an exponent run to the end. */
  lemma SomeDigits(state: NumberState, text: string) returns (digits: string)
    requires NumberFrom(state, text) && (state.Exp? || state.ExpSign?)
    requires text != "" && text[0] != '+' && text[0] != '-'
    ensures digits == text && digits != "" && Text.AllDigits(digits)
  {
    assert text == [text[0]] + text[1..];
    OneChar(state, text[0], text[1..]);
    var more, rest := DigitsOf(ExpDigits, text[1..]);
    assert rest == "";
    digits := text;
  }

  lemma TailOf(state: NumberState, text: string) returns (n: Numeral)
    requires NumberFrom(state, text) && (state.Zero? || state.Integer?)
    requires text == "" || !Text.IsDigit(text[0])
    ensures n.Valid() && text == n.TailText()
  {
    NeedsMore();
    hide NumberFrom;
    if text != "" && text[0] == '.' {
      var t := text[1..];
      assert text == ['.'] + t;
      OneChar(state, '.', t);
      assert t == [t[0]] + t[1..];
      OneChar(Point, t[0], t[1..]);
      var digits, rest := DigitsOf(Fraction, t[1..]);
      OnlyExponents(rest);
      var exponent := ExponentOf(Fraction, rest);
      n := Numeral(false, "0", Some([t[0]] + digits), exponent);
      assert Numeral(false, "0", None, exponent).ExponentText() == n.ExponentText();
      assert [t[0]] + (digits + rest) == [t[0]] + digits + rest;
    } else {
      var exponent := ExponentOf(state, text);
      n := Numeral(false, "0", None, exponent);
    }
  }

  lemma OnlyExponents(text: string)
    ensures NumberFrom(Fraction, text) ==> text == "" || text[0] != '.'
  {
  }

  lemma WholeOf(state: NumberState, text: string) returns (n: Numeral)
    requires NumberFrom(state, text) && (state.Begin? || state.Minus?) && text != "" && text[0] != '-'
    ensures n.Valid() && text == n.whole + n.TailText()
  {
    hide NumberFrom, Numeral.TailText;
    var t := text[1..];
    assert text == [text[0]] + t;
    OneChar(state, text[0], t);
    assert Text.IsDigit(text[0]);
    if text[0] == '0' {
      NoDigitAfterZero(t);
      var tail := TailOf(Zero, t);
      n := tail.(whole := "0");
      SameTail(n, tail);
    } else {
      var digits, rest := DigitsOf(Integer, t);
      var tail := TailOf(Integer, rest);
      n := tail.(whole := [text[0]] + digits);
      SameTail(n, tail);
      assert [text[0]] + (digits + rest) == [text[0]] + digits + rest;
    }
  }

  lemma Signed(n: Numeral, negative: bool) returns (signed: Numeral)
    requires n.Valid()
    ensures signed.Valid() && signed.Render() == (if negative then "-" else "") + (n.whole + n.TailText())
  {
    signed := n.(negative := negative);
    SameTail(signed, n);
  }

  lemma NumeralOf(text: string) returns (n: Numeral)
    requires ValidNumber(text)
    ensures n.Valid() && text == n.Render()
  {
    StartsSome();
    hide NumberFrom, Numeral.TailText, Numeral.Valid, Numeral.Render;
    assert text == [text[0]] + text[1..];
    OneChar(Begin, text[0], text[1..]);
    if text[0] == '-' {
      var t := text[1..];
      assert t == [t[0]] + t[1..];
      OneChar(Minus, t[0], t[1..]);
      var whole := WholeOf(Minus, t);
      n := Signed(whole, true);
    } else {
      var whole := WholeOf(Begin, text);
      n := Signed(whole, false);
    }
  }

  lemma StartsSome()
    ensures !NumberFrom(Begin, "") && !NumberFrom(Minus, "")
  {
  }

  lemma NoDigitAfterZero(text: string)
    ensures NumberFrom(Zero, text) ==> text == "" || !Text.IsDigit(text[0])
  {
  }

  lemma SameTail(n: Numeral, m: Numeral)
    requires n.fraction == m.fraction && n.exponent == m.exponent
    ensures n.TailText() == m.TailText()
  {
  }

  // Values

  /** A value without the white space around it; blank is what empty brackets enclose. */
  datatype Form =
    | FNull
    | FBool(b: bool)
    | FNumber(numeral: Numeral)
    | FString(body: seq<Spelling>)
    | FArray(blank: string, items: seq<Item>)
    | FObject(blank: string, members: seq<Pair>)

  /** An array element between its white space. */
  datatype Item = Item(before: string, value: Form, after: string)

  /** A member: white space before the key, around the colon and after the value. */
  datatype Pair = Pair(
    before: string, key: seq<Spelling>, preColon: string, postColon: string, value: Form, after: string)

  predicate Valid(f: Form) {
    match f
    case FNull => true
    case FBool(_) => true
    case FNumber(numeral) => numeral.Valid()
    case FString(body) => Spelled(body)
    case FArray(blank, items) => Blank(blank) && forall i | 0 <= i < |items| :: ValidItem(items[i])
    case FObject(blank, members) => Blank(blank) && forall i | 0 <= i < |members| :: ValidPair(members[i])
  }

  predicate ValidItem(item: Item) {
    Blank(item.before) && Blank(item.after) && Valid(item.value)
  }

  predicate ValidPair(p: Pair) {
    && Blank(p.before) && Spelled(p.key) && Blank(p.preColon) && Blank(p.postColon) && Blank(p.after)
    && Valid(p.value)
  }

  function FormText(f: Form, rest: string): string
    decreases f, 0
  {
    match f
    case FNull => "null" + rest
    case FBool(b) => (if b then "true" else "false") + rest
    case FNumber(numeral) => numeral.Render() + rest
    case FString(body) => ['\"'] + BodyText(body, rest)
    case FArray(blank, items) => ['['] + if items == [] then blank + ([']'] + rest) else ItemsText(items, rest)
    case FObject(blank, members) =>
      ['{'] + if members == [] then blank + (['}'] + rest) else PairsText(members, rest)
  }

  function ItemsText(items: seq<Item>, rest: string): string
    requires items != []
    decreases items, 1
  {
    items[0].before + FormText(items[0].value, items[0].after + AfterItem(items[1..], rest))
  }

  function AfterItem(more: seq<Item>, rest: string): (s: string)
    ensures s != "" && s[0] in {',', ']'}
    decreases more, 2
  {
    if more == [] then [']'] + rest else [','] + ItemsText(more, rest)
  }

  function PairsText(members: seq<Pair>, rest: string): string
    requires members != []
    decreases members, 1
  {
    var p := members[0];
    p.before + (['\"'] + BodyText(p.key, p.preColon + ([':'] + (p.postColon +
    FormText(p.value, p.after + AfterPair(members[1..], rest))))))
  }

  function AfterPair(more: seq<Pair>, rest: string): (s: string)
    ensures s != "" && s[0] in {',', '}'}
    decreases more, 2
  {
    if more == [] then ['}'] + rest else [','] + PairsText(more, rest)
  }

  function Meaning(f: Form): Doc
    requires Valid(f)
    decreases f, 0
  {
    match f
    case FNull => DNull
    case FBool(b) => DBool(b)
    case FNumber(numeral) => DNum(numeral.Render())
    case FString(body) => DStr(BodyMeaning(body))
    case FArray(_, items) => DArr(ItemsMeaning(items))
    case FObject(_, members) => DObj(PairsMeaning(members))
  }

  function ItemsMeaning(items: seq<Item>): seq<Doc>
    requires forall i | 0 <= i < |items| :: ValidItem(items[i])
    decreases items, 1
  {
    if items == [] then []
    else
      assert ValidItem(items[0]);
      [Meaning(items[0].value)] + ItemsMeaning(items[1..])
  }

  function PairsMeaning(members: seq<Pair>): seq<Member>
    requires forall i | 0 <= i < |members| :: ValidPair(members[i])
    decreases members, 1
  {
    if members == [] then []
    else
      assert ValidPair(members[0]);
      [Member(BodyMeaning(members[0].key), Meaning(members[0].value))] + PairsMeaning(members[1..])
  }

  /** A number may be read up to here. */
  predicate Ends(rest: string) {
    rest == "" || !NumberChar(rest[0])
  }

  lemma BlankEnds(blank: string, rest: string)
    requires Blank(blank) && Ends(rest)
    ensures Ends(blank + rest)
  {
    if blank != "" {
      assert (blank + rest)[0] == blank[0];
    } else {
      assert blank + rest == rest;
    }
  }

  lemma SkipsTo(blank: string, c: char, rest: string)
    requires Blank(blank) && !IsSpace(c)
    ensures SkipSpace(blank + ([c] + rest)) == [c] + rest
  {
    SkipBlank(blank, [c] + rest);
  }

  lemma FormStarts(f: Form, rest: string)
    requires Valid(f)
    ensures var s := FormText(f, rest); s != "" && !IsSpace(s[0]) && s[0] != ']'
  {
    if f.FNumber? {
      var n := f.numeral;
      assert Text.IsDigit(n.whole[0]);
      var s := n.Render();
      assert s[0] == if n.negative then '-' else n.whole[0];
    }
  }

  /** White space before a value does not matter. */
  lemma ValueAfterBlank(blank: string, s: string)
    requires Blank(blank)
    ensures ReadValue(blank + s) == ReadValue(s)
  {
    SkipBlank(blank, s);
  }

  lemma SkipTwice(s: string)
    ensures SkipSpace(SkipSpace(s)) == SkipSpace(s)
  {
  }

  lemma MembersAfterSkip(s: string)
    ensures ReadMembers(SkipSpace(s)) == ReadMembers(s)
  {
    SkipTwice(s);
  }

  lemma ItemsAfterSkip(s: string)
    ensures ReadItems(SkipSpace(s)) == ReadItems(s)
  {
    ValueAfterSkip(s);
    hide ReadValue;
  }

  lemma ValueAfterSkip(s: string)
    ensures ReadValue(SkipSpace(s)) == ReadValue(s)
  {
    SkipTwice(s);
  }

  // Reading every form

  lemma {:induction false} FormRead(f: Form, rest: string)
    requires Valid(f) && Ends(rest)
    ensures ReadValue(FormText(f, rest)) == Some((Meaning(f), rest))
    decreases f, 0
  {
    match f
    case FNull => ReadKeyword(rest);
    case FBool(_) => ReadKeyword(rest);
    case FNumber(numeral) =>
      NumeralsAreNumbers(numeral);
      ReadNumberWritten(numeral.Render(), rest);
    case FString(body) => StringRead(body, rest);
    case FArray(blank, items) =>
      if items == [] {
        EmptyArrayRead(blank, rest);
      } else {
        ItemsRead(items, rest);
        ItemsStart(items, rest);
        ItemsAfterSkip(ItemsText(items, rest));
        ArrayRead(ItemsText(items, rest));
      }
    case FObject(blank, members) =>
      if members == [] {
        EmptyObjectRead(blank, rest);
      } else {
        PairsRead(members, rest);
        PairsStart(members, rest);
        MembersAfterSkip(PairsText(members, rest));
        ObjectRead(PairsText(members, rest));
      }
  }

  lemma StringRead(body: seq<Spelling>, rest: string)
    requires Spelled(body)
    ensures ReadValue(['\"'] + BodyText(body, rest)) == Some((DStr(BodyMeaning(body)), rest))
  {
    BodyRead(body, rest);
    hide Spelled, ReadString, BodyText;
    var s := ['\"'] + BodyText(body, rest);
    assert SkipSpace(s) == s && s[1..] == BodyText(body, rest);
  }

  lemma EmptyArrayRead(blank: string, rest: string)
    requires Blank(blank)
    ensures ReadValue(['['] + (blank + ([']'] + rest))) == Some((DArr([]), rest))
  {
    SkipsTo(blank, ']', rest);
    var s := ['['] + (blank + ([']'] + rest));
    assert SkipSpace(s) == s && s[1..] == blank + ([']'] + rest);
  }

  lemma EmptyObjectRead(blank: string, rest: string)
    requires Blank(blank)
    ensures ReadValue(['{'] + (blank + (['}'] + rest))) == Some((DObj([]), rest))
  {
    SkipsTo(blank, '}', rest);
    var s := ['{'] + (blank + (['}'] + rest));
    assert SkipSpace(s) == s && s[1..] == blank + (['}'] + rest);
  }

  lemma ArrayRead(t: string)
    requires ReadItems(SkipSpace(t)).Some? && SkipSpace(t) != "" && SkipSpace(t)[0] != ']'
    ensures var (items, rest) := ReadItems(SkipSpace(t)).value; ReadValue(['['] + t) == Some((DArr(items), rest))
  {
    var s := ['['] + t;
    assert SkipSpace(s) == s && s[1..] == t;
  }

  lemma ObjectRead(t: string)
    requires ReadMembers(SkipSpace(t)).Some? && SkipSpace(t) != "" && SkipSpace(t)[0] != '}'
    ensures var (members, rest) := ReadMembers(SkipSpace(t)).value;
            ReadValue(['{'] + t) == Some((DObj(members), rest))
  {
    var s := ['{'] + t;
    assert SkipSpace(s) == s && s[1..] == t;
  }

  lemma ItemsStart(items: seq<Item>, rest: string)
    requires items != [] && ValidItem(items[0])
    ensures var u := SkipSpace(ItemsText(items, rest)); u != "" && u[0] != ']'
  {
    var tail := items[0].after + AfterItem(items[1..], rest);
    FormStarts(items[0].value, tail);
    SkipBlank(items[0].before, FormText(items[0].value, tail));
  }

  lemma PairsStart(members: seq<Pair>, rest: string)
    requires members != [] && ValidPair(members[0])
    ensures var u := SkipSpace(PairsText(members, rest)); u != "" && u[0] == '\"'
  {
    var p := members[0];
    SkipsTo(p.before, '\"', BodyText(p.key, p.preColon + ([':'] + (p.postColon +
      FormText(p.value, p.after + AfterPair(members[1..], rest))))));
  }

  lemma StartsFull(s: string)
    requires s != "" && !IsSpace(s[0])
    ensures SkipSpace(s) == s
  {
  }

  lemma {:induction false} ItemsRead(items: seq<Item>, rest: string)
    requires items != [] && forall i | 0 <= i < |items| :: ValidItem(items[i])
    ensures ReadItems(ItemsText(items, rest)) == Some((ItemsMeaning(items), rest))
    decreases items, 1
  {
    var item, more := items[0], items[1..];
    var next := AfterItem(more, rest);
    assert ValidItem(item);
    hide ReadValue, FormText, SkipSpace, Blank;
    BlankEnds(item.after, next);
    FormRead(item.value, item.after + next);
    ValueAfterBlank(item.before, FormText(item.value, item.after + next));
    SkipBlank(item.after, next);
    StartsFull(next);
    if more == [] {
      assert next[1..] == rest;
      assert [Meaning(item.value)] + [] == [Meaning(item.value)];
    } else {
      ItemsRead(more, rest);
      assert next[1..] == ItemsText(more, rest);
    }
  }

  lemma {:induction false} PairsRead(members: seq<Pair>, rest: string)
    requires members != [] && forall i | 0 <= i < |members| :: ValidPair(members[i])
    ensures ReadMembers(PairsText(members, rest)) == Some((PairsMeaning(members), rest))
    decreases members, 1
  {
    var p, more := members[0], members[1..];
    var next := AfterPair(more, rest);
    assert ValidPair(p);
    hide ReadValue, ReadString, ReadMembers, FormText, BodyText, SkipSpace, Blank, Spelled;
    BlankEnds(p.after, next);
    FormRead(p.value, p.after + next);
    var value := FormText(p.value, p.after + next);
    ValueAfterBlank(p.postColon, value);
    SkipsTo(p.preColon, ':', p.postColon + value);
    assert ([':'] + (p.postColon + value))[1..] == p.postColon + value;
    SkipBlank(p.after, next);
    StartsFull(next);
    var colon := p.preColon + ([':'] + (p.postColon + value));
    BodyRead(p.key, colon);
    SkipsTo(p.before, '\"', BodyText(p.key, colon));
    if more != [] {
      PairsRead(more, rest);
      assert next[1..] == PairsText(more, rest);
    } else {
      assert next[1..] == rest;
    }
    PairRead(members, rest, colon, p.after + next);
  }

  lemma PairRead(members: seq<Pair>, rest: string, colon: string, tail: string)
    requires members != [] && ValidPair(members[0]) && (forall i | 0 <= i < |members| :: ValidPair(members[i]))
    requires SkipSpace(PairsText(members, rest)) == ['\"'] + BodyText(members[0].key, colon)
    requires ReadString(BodyText(members[0].key, colon)) == Some((BodyMeaning(members[0].key), colon))
    requires var c := SkipSpace(colon);
             c != "" && c[0] == ':' && ReadValue(c[1..]) == Some((Meaning(members[0].value), tail))
    requires var after := SkipSpace(tail);
             && after != ""
             && (members[1..] == [] ==> after[0] == '}' && after[1..] == rest)
             && (members[1..] != [] ==>
                   after[0] == ',' && ReadMembers(after[1..]) == Some((PairsMeaning(members[1..]), rest)))
    ensures ReadMembers(PairsText(members, rest)) == Some((PairsMeaning(members), rest))
  {
    hide ReadString, ReadValue;
    var s := ['\"'] + BodyText(members[0].key, colon);
    assert s[1..] == BodyText(members[0].key, colon);
    var first := Member(BodyMeaning(members[0].key), Meaning(members[0].value));
    assert [first] + [] == [first];
  }

  /** A text written from a form, white space around it included, is read as what the form means. */
  lemma FormsAreRead(before: string, f: Form, after: string)
    requires Valid(f) && Blank(before) && Blank(after)
    ensures ReadText(before + FormText(f, after)) == Some(Meaning(f))
  {
    BlankEnds(after, "");
    assert after + "" == after;
    FormRead(f, after);
    ValueAfterBlank(before, FormText(f, after));
    SkipBlank(after, "");
  }

  // Nothing else is read

  lemma KeywordRead(t: string, word: string)
    requires Starts(t, word)
    ensures t == word + t[|word|..]
  {
  }

  lemma {:induction false} FormOf(s: string) returns (f: Form)
    requires ReadValue(s).Some?
    ensures Valid(f) && Meaning(f) == ReadValue(s).value.0 && SkipSpace(s) == FormText(f, ReadValue(s).value.1)
    decreases |s|, 1
  {
    var t := SkipSpace(s);
    if t[0] == '{' || t[0] == '[' {
      f := BracketsOf(s, t);
    } else if t[0] == '\"' {
      var body := BodyOf(t[1..]);
      f := FString(body);
      assert t == ['\"'] + t[1..];
    } else if Starts(t, "null") {
      KeywordRead(t, "null");
      f := FNull;
    } else if Starts(t, "true") {
      KeywordRead(t, "true");
      f := FBool(true);
    } else if Starts(t, "false") {
      KeywordRead(t, "false");
      f := FBool(false);
    } else {
      var n := NumberSpan(t);
      var numeral := NumeralOf(t[..n]);
      f := FNumber(numeral);
      assert t == t[..n] + t[n..];
    }
  }

  lemma {:induction false} BracketsOf(s: string, t: string) returns (f: Form)
    requires ReadValue(s).Some? && t == SkipSpace(s) && (t[0] == '{' || t[0] == '[')
    ensures Valid(f) && Meaning(f) == ReadValue(s).value.0 && t == FormText(f, ReadValue(s).value.1)
    decreases |t|, 0
  {
    hide ReadItems, ReadMembers, ItemsText, PairsText, Blank, ValidItem, ValidPair;
    var u := SkipSpace(t[1..]);
    var blank := SkippedIsBlank(t[1..]);
    assert t == [t[0]] + t[1..];
    assert Blank("") by {
      NothingIsBlank();
    }
    if t[0] == '[' {
      if u != "" && u[0] == ']' {
        f := FArray(blank, []);
        assert u == [']'] + u[1..];
      } else {
        ItemsAfterSkip(t[1..]);
        var items := ItemsOf(t[1..]);
        f := FArray("", items);
      }
    } else {
      if u != "" && u[0] == '}' {
        f := FObject(blank, []);
        assert u == ['}'] + u[1..];
      } else {
        MembersAfterSkip(t[1..]);
        var members := PairsOf(t[1..]);
        f := FObject("", members);
      }
    }
  }

  lemma NothingIsBlank()
    ensures Blank("")
  {
  }

  lemma {:induction false} ItemsOf(s: string) returns (items: seq<Item>)
    requires ReadItems(s).Some?
    ensures items != [] && (forall i | 0 <= i < |items| :: ValidItem(items[i]))
    ensures ItemsMeaning(items) == ReadItems(s).value.0 && s == ItemsText(items, ReadItems(s).value.1)
    decreases |s|, 2
  {
    var before := SkippedIsBlank(s);
    var value := FormOf(s);
    var v := ReadValue(s).value.1;
    var after := SkippedIsBlank(v);
    var tail := SkipSpace(v);
    var item := Item(before, value, after);
    assert ValidItem(item) && tail == [tail[0]] + tail[1..];
    if tail[0] == ']' {
      items := [item];
      assert items[1..] == [] && ItemsMeaning(items) == [Meaning(value)] + [];
    } else {
      var more := ItemsOf(tail[1..]);
      items := [item] + more;
      assert items[1..] == more;
    }
  }

  /** What reading members comes to, from the key on. */
  lemma MembersStep(s: string)
    requires ReadMembers(s).Some?
    ensures var t := SkipSpace(s);
            && t != "" && t[0] == '\"' && ReadString(t[1..]).Some?
            && var (key, u) := ReadString(t[1..]).value;
               var c := SkipSpace(u);
               && c != "" && c[0] == ':' && |c| < |s| && ReadValue(c[1..]).Some?
               && var (value, v) := ReadValue(c[1..]).value;
                  var tail := SkipSpace(v);
                  && tail != "" && (tail[0] == '}' || tail[0] == ',')
                  && ReadMembers(s) ==
                     if tail[0] == '}' then Some(([Member(key, value)], tail[1..]))
                     else if ReadMembers(tail[1..]).Some? then
                       Some(([Member(key, value)] + ReadMembers(tail[1..]).value.0, ReadMembers(tail[1..]).value.1))
                     else None
  {
    hide ReadValue, ReadString;
  }

  /** The key of the first member, and the text from the colon on. */
  lemma KeyOf(s: string) returns (before: string, key: seq<Spelling>, preColon: string, colon: string)
    requires ReadMembers(s).Some?
    ensures Blank(before) && Spelled(key) && Blank(preColon)
    ensures s == before + (['\"'] + BodyText(key, preColon + ([':'] + colon)))
    ensures |colon| < |s| && ReadValue(colon).Some?
    ensures var (value, v) := ReadValue(colon).value;
            var tail := SkipSpace(v);
            var member := Member(BodyMeaning(key), value);
            && tail != "" && (tail[0] == '}' || tail[0] == ',')
            && ReadMembers(s) ==
               if tail[0] == '}' then Some(([member], tail[1..]))
               else if ReadMembers(tail[1..]).Some? then
                 Some(([member] + ReadMembers(tail[1..]).value.0, ReadMembers(tail[1..]).value.1))
               else None
  {
    MembersStep(s);
    hide ReadValue, ReadString, ReadMembers, BodyText, Blank, SkipSpace;
    before := SkippedIsBlank(s);
    var t := SkipSpace(s);
    key := BodyOf(t[1..]);
    var u := ReadString(t[1..]).value.1;
    preColon := SkippedIsBlank(u);
    assert t == ['\"'] + t[1..];
    assert SkipSpace(u) == [':'] + SkipSpace(u)[1..];
    colon := SkipSpace(u)[1..];
  }

  lemma {:induction false} PairsOf(s: string) returns (members: seq<Pair>)
    requires ReadMembers(s).Some?
    ensures members != [] && (forall i | 0 <= i < |members| :: ValidPair(members[i]))
    ensures PairsMeaning(members) == ReadMembers(s).value.0 && s == PairsText(members, ReadMembers(s).value.1)
    decreases |s|, 2
  {
    var before, key, preColon, colon := KeyOf(s);
    hide ReadValue, ReadMembers, FormText, BodyText, BodyMeaning, Blank, SkipSpace;
    var postColon := SkippedIsBlank(colon);
    var value := FormOf(colon);
    var v := ReadValue(colon).value.1;
    var after := SkippedIsBlank(v);
    var tail := SkipSpace(v);
    var p := Pair(before, key, preColon, postColon, value, after);
    assert ValidPair(p) && tail == [tail[0]] + tail[1..];
    if tail[0] == '}' {
      members := [p];
      assert members[1..] == [] && PairsMeaning(members) == [Member(BodyMeaning(key), Meaning(value))] + [];
    } else {
      var more := PairsOf(tail[1..]);
      members := [p] + more;
      assert members[1..] == more;
    }
  }

  /** Whatever is read as a document is the text of a form that means it. */
  lemma OnlyFormsAreRead(s: string) returns (before: string, f: Form, after: string)
    requires ReadText(s).Some?
    ensures Valid(f) && Blank(before) && Blank(after)
    ensures s == before + FormText(f, after) && Meaning(f) == ReadText(s).value
  {
    before := SkippedIsBlank(s);
    f := FormOf(s);
    after := SkippedIsBlank(ReadValue(s).value.1);
    assert after + "" == after;
  }

  // What the writer chooses

  /** The characters that the writer does not write as they are. */
  predicate Special(c: char) {
    c < ' ' || c in {'\"', '\\', '<', '>', '&'} || c as int == 0x2028 || c as int == 0x2029
  }

  /** A plain character stands for itself; a special one has its short escape or one with small digits. */
  predicate CompactSpelling(p: Spelling) {
    match p
    case Raw(c) => !Special(c)
    case Short(letter) => letter != '/'
    case Escaped(unit) =>
      && unit.Valid() && (forall i | 0 <= i < 4 :: unit.digits[i] in "0123456789abcdef")
      && unit.Value() < 0xD800 && Special(unit.Value() as char)
      && unit.Value() !in {8, 9, 10, 12, 13, 34, 92}
    case Paired(_, _) => false
  }

  predicate CompactBody(body: seq<Spelling>) {
    forall p <- body :: CompactSpelling(p)
  }

  /** No white space between tokens, and every character in its one spelling. */
  predicate Compact(f: Form) {
    match f
    case FString(body) => CompactBody(body)
    case FArray(blank, items) => blank == "" && forall i | 0 <= i < |items| :: CompactItem(items[i])
    case FObject(blank, members) => blank == "" && forall i | 0 <= i < |members| :: CompactPair(members[i])
    case _ => true
  }

  predicate CompactItem(item: Item) {
    item.before == item.after == "" && Compact(item.value)
  }

  predicate CompactPair(p: Pair) {
    && p.before == p.preColon == p.postColon == p.after == ""
    && CompactBody(p.key) && Compact(p.value)
  }

  lemma HexDigitIs(d: nat)
    requires d < 16
    ensures HexIs(HexDigit(d), d) && HexDigit(d) in "0123456789abcdef"
  {
    assert "0123456789abcdef"[d] == HexDigit(d);
  }

  lemma WrittenShort(c: char) returns (p: Spelling)
    requires c as int in {8, 9, 10, 12, 13, 34, 92}
    ensures p.Valid() && CompactSpelling(p) && p.Meaning() == c && p.Text() == WriteChar(c)
  {
    p := Short(match c as int
               case 8 => 'b'
               case 9 => 't'
               case 10 => 'n'
               case 12 => 'f'
               case 13 => 'r'
               case _ => c);
  }

  lemma UnitOfDigits(a: nat, b: nat, d: nat, e: nat) returns (unit: Unit)
    requires a < 16 && b < 16 && d < 16 && e < 16
    ensures unit.Valid() && unit.Value() == ((a * 16 + b) * 16 + d) * 16 + e
    ensures unit.digits == [HexDigit(a), HexDigit(b), HexDigit(d), HexDigit(e)]
    ensures forall i | 0 <= i < 4 :: unit.digits[i] in "0123456789abcdef"
  {
    HexDigitIs(a);
    HexDigitIs(b);
    HexDigitIs(d);
    HexDigitIs(e);
    hide HexIs, HexDigit;
    unit := Unit([HexDigit(a), HexDigit(b), HexDigit(d), HexDigit(e)], a, b, d, e);
  }

  /** The spelling by these four digits. */
  lemma WrittenEscape(c: char, a: nat, b: nat, d: nat, e: nat) returns (p: Spelling)
    requires a < 16 && b < 16 && d < 16 && e < 16 && ((a * 16 + b) * 16 + d) * 16 + e == c as int
    requires Special(c) && c as int !in {8, 9, 10, 12, 13, 34, 92} && c as int < 0xD800
    ensures p.Valid() && CompactSpelling(p) && p.Meaning() == c
    ensures p.Text() == "\\u" + [HexDigit(a), HexDigit(b), HexDigit(d), HexDigit(e)]
  {
    hide HexDigit, Special, Unit.Valid, Unit.Value;
    var unit := UnitOfDigits(a, b, d, e);
    p := Escaped(unit);
    assert unit.Value() as char == c;
  }

  lemma WrittenText(c: char)
    requires c as int !in {8, 9, 10, 12, 13, 34, 92}
    ensures c < ' ' || c in {'<', '>', '&'} ==>
              WriteChar(c) == "\\u" + [HexDigit(0), HexDigit(0), HexDigit(c as int / 16), HexDigit(c as int % 16)]
    ensures c as int == 0x2028 || c as int == 0x2029 ==>
              WriteChar(c) == "\\u" + [HexDigit(2), HexDigit(0), HexDigit(2), HexDigit(c as int % 16)]
    ensures !Special(c) ==> WriteChar(c) == [c]
  {
    assert HexDigit(0) == '0' && HexDigit(2) == '2';
  }

  lemma WrittenSpelling(c: char) returns (p: Spelling)
    ensures p.Valid() && CompactSpelling(p) && p.Meaning() == c && p.Text() == WriteChar(c)
  {
    hide WriteChar, HexDigit, Unit.Valid, Unit.Value;
    if c as int in {8, 9, 10, 12, 13, 34, 92} {
      p := WrittenShort(c);
    } else {
      WrittenText(c);
      if c < ' ' || c in {'<', '>', '&'} {
        p := WrittenEscape(c, 0, 0, c as int / 16, c as int % 16);
      } else if c as int == 0x2028 || c as int == 0x2029 {
        p := WrittenEscape(c, 2, 0, 2, c as int % 16);
      } else {
        p := Raw(c);
      }
    }
  }

  lemma {:induction false} WrittenBody(text: string) returns (body: seq<Spelling>)
    ensures Spelled(body) && CompactBody(body) && BodyMeaning(body) == text
    ensures forall rest :: BodyText(body, rest) == WriteBody(text, rest)
    decreases |text|
  {
    hide Spelling.Valid, Spelling.Meaning, Spelling.Text, WriteChar, Unit.Value, Unit.Valid, Special;
    if text == "" {
      body := [];
    } else {
      var p := WrittenSpelling(text[0]);
      var more := WrittenBody(text[1..]);
      body := [p] + more;
      assert body[1..] == more && text == [text[0]] + text[1..];
      NoPairs(p, more);
      Prepended(p, more);
      assert forall q <- body :: q == p || q in more;
    }
  }

  lemma NoPairs(p: Spelling, more: seq<Spelling>)
    requires CompactSpelling(p)
    ensures more != [] ==> !ReadsAsPair(p, more[0])
  {
  }

  /** The writer's text is that of a compact form of the document. */
  lemma {:induction false} WritesCompactly(doc: Doc) returns (f: Form)
    requires NumbersValid(doc)
    ensures Valid(f) && Compact(f) && Meaning(f) == doc
    ensures forall rest :: FormText(f, rest) == WriteValue(doc, rest)
    decreases doc, 0
  {
    hide Spelled, CompactBody, BodyText, WriteBody, BodyMeaning;
    match doc
    case DNull => f := FNull;
    case DBool(b) => f := FBool(b);
    case DNum(text) =>
      var numeral := NumeralOf(text);
      f := FNumber(numeral);
    case DStr(text) =>
      var body := WrittenBody(text);
      f := FString(body);
    case DArr(items) =>
      if items == [] {
        f := FArray("", []);
        assert forall rest :: "" + ([']'] + rest) == [']'] + rest;
      } else {
        var written := WrittenItems(items);
        f := FArray("", written);
      }
    case DObj(members) =>
      if members == [] {
        f := FObject("", []);
        assert forall rest :: "" + (['}'] + rest) == ['}'] + rest;
      } else {
        var written := WrittenPairs(members);
        f := FObject("", written);
      }
  }

  lemma {:induction false} WrittenItems(items: seq<Doc>) returns (written: seq<Item>)
    requires items != [] && forall i | 0 <= i < |items| :: NumbersValid(items[i])
    ensures written != [] && (forall i | 0 <= i < |written| :: ValidItem(written[i]) && CompactItem(written[i]))
    ensures ItemsMeaning(written) == items
    ensures forall rest :: ItemsText(written, rest) == WriteItems(items, rest)
    decreases items, 1
  {
    var value := WritesCompactly(items[0]);
    var item := Item("", value, "");
    assert items == [items[0]] + items[1..];
    hide FormText, WriteValue, Valid, Compact;
    if |items| == 1 {
      written := [item];
      assert written[1..] == [];
      forall rest ensures ItemsText(written, rest) == WriteItems(items, rest) {
        assert "" + ([']'] + rest) == [']'] + rest;
        assert "" + FormText(value, [']'] + rest) == FormText(value, [']'] + rest);
      }
    } else {
      var more := WrittenItems(items[1..]);
      written := [item] + more;
      assert written[1..] == more;
      forall rest ensures ItemsText(written, rest) == WriteItems(items, rest) {
        var tail := [','] + WriteItems(items[1..], rest);
        assert AfterItem(more, rest) == tail && "" + tail == tail;
        assert "" + FormText(value, tail) == FormText(value, tail);
      }
    }
  }

  lemma {:induction false} WrittenPairs(members: seq<Member>) returns (written: seq<Pair>)
    requires members != [] && forall i | 0 <= i < |members| :: NumbersValid(members[i].value)
    ensures written != [] && (forall i | 0 <= i < |written| :: ValidPair(written[i]) && CompactPair(written[i]))
    ensures PairsMeaning(written) == members
    ensures forall rest :: PairsText(written, rest) == WriteMembers(members, rest)
    decreases members, 1
  {
    var Member(key, value) := members[0];
    var body := WrittenBody(key);
    var form := WritesCompactly(value);
    var p := Pair("", body, "", "", form, "");
    var more: seq<Pair> := [];
    if |members| > 1 {
      more := WrittenPairs(members[1..]);
    }
    written := [p] + more;
    assert written[1..] == more && members == [members[0]] + members[1..];
    hide FormText, WriteValue, Valid, Compact, BodyText, WriteBody, Spelled, CompactBody, BodyMeaning;
    forall rest ensures PairsText(written, rest) == WriteMembers(members, rest) {
      var after := AfterMember(members[1..], rest);
      assert AfterPair(more, rest) == after && "" + after == after;
      var text := FormText(form, after);
      assert "" + text == text && "" + ([':'] + text) == [':'] + text;
      var whole := ['\"'] + BodyText(body, [':'] + text);
      assert "" + whole == whole;
    }
  }
}
