/**
  Every text that is read as an instant, written out from its parts: any number
  of fraction digits or none, a point or a comma, one- or two-digit hours, Z or
  an offset. Reading accepts exactly these and gives the instant they denote.
 */
module TimeForms {
  import opened Wrappers
  import opened Text
  import opened Calendar
  import opened KnowledgeTime

  /** The parts of a text; wide says that the hour has two digits, no zone that it ends in Z. */
  datatype Form = Form(
    year: nat, month: nat, day: nat, hour: nat, minute: nat, second: nat, wide: bool,
    separator: char, digits: string, zone: Option<Offset>)
  {
    /** The parts can be written down. */
    predicate Valid() {
      && year < 10000 && month < 100 && day < 100 && minute < 100 && second < 100
      && hour < (if wide then 100 else 10)
      && AllDigits(digits) && (separator == '.' || separator == ',')
      && (zone.Some? ==> zone.value.hours < 100 && zone.value.minutes < 100)
    }

    function ZoneText(): string {
      match zone
      case None => ['Z']
      case Some(offset) => offset.Text()
    }

    function FractionText(): string {
      if digits == "" then ZoneText() else [separator] + (digits + ZoneText())
    }

    function HourText(): string
      requires hour < (if wide then 100 else 10)
    {
      if wide then Fixed(hour, 2) else [DigitChar(hour)]
    }

    function ClockText(): string
      requires Valid()
    {
      HourText() + ([':'] + (Fixed(minute, 2) + ([':'] + (Fixed(second, 2) + FractionText()))))
    }

    function Text(): string
      requires Valid()
    {
      Fixed(year, 4) + (['-'] + (Fixed(month, 2) + (['-'] + (Fixed(day, 2) + (['T'] + ClockText())))))
    }

    /** The parts denote an instant. */
    predicate Denotes() {
      && 1 <= month <= 12 && 1 <= day <= DaysInMonth(year, month) && hour < 24 && minute < 60 && second < 60
      && (zone.Some? ==> zone.value.hours <= 24 && zone.value.minutes <= 60)
    }

    /** Seconds east of UTC. */
    function East(): int {
      match zone
      case None => 0
      case Some(offset) =>
        if offset.negative then -3600 * offset.hours - 60 * offset.minutes
        else 3600 * offset.hours + 60 * offset.minutes
    }

    /** The instant lies in the nanosecond that the parts denote. */
    predicate Is(i: Instant)
      requires AllDigits(digits)
    {
      && 1 <= month <= 12
      && i.sec == 86400 * DayNumber(Date(year, month, day)) + 3600 * hour + 60 * minute + second - East()
      && i.nano * Pow10(|digits|) <= DigitsValue(digits) * 1_000_000_000 < (i.nano + 1) * Pow10(|digits|)
    }
  }

  // Reading the parts

  lemma ReadTwo(n: nat, rest: string)
    requires n < 100
    ensures ReadDigits(Fixed(n, 2) + rest, 2) == Some((n, rest))
  {
    Powers();
    ReadFixed(n, 2, rest);
  }

  lemma ReadHourText(f: Form, rest: string)
    requires f.hour < (if f.wide then 100 else 10) && rest != "" && !IsDigit(rest[0])
    ensures ReadHour(f.HourText() + rest) == Some((f.hour, rest))
  {
    if f.wide {
      ReadTwoHour(f.hour, rest);
    } else {
      assert (f.HourText() + rest)[1..] == rest;
    }
  }

  lemma ReadZoneText(f: Form)
    requires f.zone.Some? ==> f.zone.value.hours < 100 && f.zone.value.minutes < 100
    ensures var read := ReadZone(f.ZoneText());
            if f.zone.Some? && (f.zone.value.hours > 24 || f.zone.value.minutes > 60) then read == None
            else read == Some((f.East(), ""))
    ensures f.ZoneText() != "" && f.ZoneText()[0] in {'Z', '+', '-'}
  {
    match f.zone
    case None => assert ['Z'][1..] == "";
    case Some(offset) =>
      var s, minutes := offset.Text(), Fixed(offset.minutes, 2);
      assert s[1..] == Fixed(offset.hours, 2) + ([':'] + minutes);
      ReadTwo(offset.hours, [':'] + minutes);
      assert ([':'] + minutes)[1..] == minutes;
      ReadTwo(offset.minutes, "");
      assert minutes + "" == minutes;
  }

  lemma ReadFractionText(f: Form)
    requires AllDigits(f.digits) && (f.separator == '.' || f.separator == ',')
    requires f.zone.Some? ==> f.zone.value.hours < 100 && f.zone.value.minutes < 100
    ensures ReadFraction(f.FractionText()) == (Nanoseconds(f.digits), f.ZoneText())
    ensures f.FractionText() != "" && !IsDigit(f.FractionText()[0])
  {
    hide Nanoseconds;
    ReadZoneText(f);
    var zone := f.ZoneText();
    if f.digits == "" {
      NoDigits();
    } else {
      var s := f.FractionText();
      assert s[1..] == f.digits + zone && s[1] == f.digits[0];
      SpanOfDigits(f.digits, zone);
      assert (f.digits + zone)[..|f.digits|] == f.digits && (f.digits + zone)[|f.digits|..] == zone;
    }
  }

  lemma NoDigits()
    ensures Nanoseconds("") == 0
  {
  }

  /** Half a second, and a quarter. */
  lemma ShortFractions()
    ensures Nanoseconds("5") == 500_000_000 && Nanoseconds("25") == 250_000_000
  {
    assert DigitsValue("5") == 5 && "25"[..1] == "2" && DigitsValue("2") == 2;
    assert Pow10(7) == 10_000_000 && Pow10(8) == 100_000_000;
  }

  /** Fractions are cut at the nanosecond. */
  lemma NanosecondsAreCut(digits: string)
    requires AllDigits(digits)
    ensures Nanoseconds(digits) < 1_000_000_000
    ensures var n := Nanoseconds(digits);
            n * Pow10(|digits|) <= DigitsValue(digits) * 1_000_000_000 < (n + 1) * Pow10(|digits|)
  {
    Powers();
    if |digits| >= 9 {
      var head, tail := digits[..9], digits[9..];
      assert digits == head + tail;
      ValueOfParts(head, tail);
      DigitsBelow(head);
      DigitsBelow(tail);
      PowSum(9, |tail|);
      CutAt(DigitsValue(head), DigitsValue(tail), Pow10(|tail|));
    } else {
      DigitsBelow(digits);
      PowSum(|digits|, 9 - |digits|);
      Scaling(DigitsValue(digits), Pow10(9 - |digits|), Pow10(|digits|));
    }
  }

  lemma CutAt(head: nat, tail: nat, p: nat)
    requires tail < p
    ensures head * (1_000_000_000 * p) <= (head * p + tail) * 1_000_000_000 < (head + 1) * (1_000_000_000 * p)
  {
    assert (head * p + tail) * 1_000_000_000 == head * (1_000_000_000 * p) + tail * 1_000_000_000;
    assert (head + 1) * (1_000_000_000 * p) == head * (1_000_000_000 * p) + 1_000_000_000 * p;
  }

  lemma Scaling(v: nat, scale: nat, p: nat)
    requires v < p && p * scale == 1_000_000_000
    ensures v * scale < 1_000_000_000
    ensures v * scale * p == v * 1_000_000_000 < (v * scale + 1) * p
  {
    assert v * scale * p == v * (p * scale);
    assert (v * scale + 1) * p == v * scale * p + p;
    assert p * scale == v * scale + (p - v) * scale;
    assert (p - v) * scale >= scale;
  }

  lemma {:induction false} ValueOfParts(a: string, b: string)
    requires AllDigits(a) && AllDigits(b)
    ensures DigitsValue(a + b) == DigitsValue(a) * Pow10(|b|) + DigitsValue(b)
  {
    if b == "" {
      assert a + b == a;
    } else {
      var init := b[..|b| - 1];
      assert (a + b)[..|a + b| - 1] == a + init && (a + b)[|a + b| - 1] == b[|b| - 1];
      assert DigitsValue(a + b) == 10 * DigitsValue(a + init) + DigitOf(b[|b| - 1]);
      assert Pow10(|b|) == 10 * Pow10(|init|);
      hide DigitsValue, Pow10;
      ValueOfParts(a, init);
      TenTimes(DigitsValue(a), Pow10(|init|));
    }
  }

  lemma TenTimes(v: nat, p: nat)
    ensures 10 * (v * p) == v * (10 * p)
  {
  }

  // Every form is read, and nothing else

  lemma ReadDateParts(f: Form, rest: string)
    requires f.year < 10000 && f.month < 100 && f.day < 100
    ensures ReadDate(Fixed(f.year, 4) + (['-'] + (Fixed(f.month, 2) + (['-'] + (Fixed(f.day, 2) + rest))))) ==
            Some(((f.year, f.month, f.day), rest))
  {
    Powers();
    ReadTwo(f.day, rest);
    var day := Fixed(f.day, 2) + rest;
    ReadTwo(f.month, ['-'] + day);
    var month := Fixed(f.month, 2) + (['-'] + day);
    ReadFixed(f.year, 4, ['-'] + month);
    assert (['-'] + day)[1..] == day && (['-'] + month)[1..] == month;
  }

  lemma ReadClockParts(f: Form)
    requires f.Valid()
    ensures ReadClock(f.ClockText()) == Some(((f.hour, f.minute, f.second), f.FractionText()))
  {
    hide Form.HourText, Form.FractionText;
    var fraction := f.FractionText();
    ReadTwo(f.second, fraction);
    var second := Fixed(f.second, 2) + fraction;
    ReadTwo(f.minute, [':'] + second);
    var minute := Fixed(f.minute, 2) + ([':'] + second);
    ReadHourText(f, [':'] + minute);
    assert ([':'] + second)[1..] == second && ([':'] + minute)[1..] == minute;
  }

  /**
    A text written from parts is read exactly when the parts denote an instant,
    as that instant, cut at the nanosecond.
   */
  lemma FormsAreRead(f: Form)
    requires f.Valid()
    ensures var r := ParseTime(f.Text()); if f.Denotes() then r.Some? && f.Is(r.value) else r == None
  {
    hide Form.HourText, Form.ClockText, Form.FractionText, Form.ZoneText, ReadDate, ReadClock, ReadFraction, ReadZone;
    hide Nanoseconds, DayNumber;
    var time := ['T'] + f.ClockText();
    assert f.Text() == Fixed(f.year, 4) + (['-'] + (Fixed(f.month, 2) + (['-'] + (Fixed(f.day, 2) + time))));
    ReadDateParts(f, time);
    assert time[1..] == f.ClockText();
    ReadClockParts(f);
    ReadFractionText(f);
    ReadZoneText(f);
    NanosecondsAreCut(f.digits);
  }

  lemma {:induction false} FixedOfDigits(digits: string)
    requires AllDigits(digits)
    ensures Fixed(DigitsValue(digits), |digits|) == digits
  {
    if digits != "" {
      var init := digits[..|digits| - 1];
      FixedOfDigits(init);
      assert digits == init + [digits[|digits| - 1]];
      assert DigitsValue(digits) / 10 == DigitsValue(init);
      assert DigitsValue(digits) % 10 == DigitOf(digits[|digits| - 1]);
    }
  }

  lemma DigitsRead(s: string, n: nat)
    requires ReadDigits(s, n).Some?
    ensures var (v, rest) := ReadDigits(s, n).value; v < Pow10(n) && s == Fixed(v, n) + rest
  {
    FixedOfDigits(s[..n]);
    DigitsBelow(s[..n]);
    assert s == s[..n] + s[n..];
  }

  lemma LiteralRead(s: string, c: char)
    requires ReadLiteral(s, c).Some?
    ensures s == [c] + ReadLiteral(s, c).value
  {
  }

  lemma TwoDigits(a: char, b: char)
    requires IsDigit(a) && IsDigit(b)
    ensures Fixed(10 * DigitOf(a) + DigitOf(b), 2) == [a, b]
  {
    var n := 10 * DigitOf(a) + DigitOf(b);
    assert Fixed(n, 2) == Fixed(n / 10, 1) + [DigitChar(n % 10)];
    assert Fixed(n / 10, 1) == Fixed(n / 100, 0) + [DigitChar(n / 10)];
  }

  lemma HourRead(s: string) returns (f: Form)
    requires ReadHour(s).Some?
    ensures var (hour, rest) := ReadHour(s).value;
            && f.hour == hour < (if f.wide then 100 else 10)
            && s == f.HourText() + rest
  {
    var (hour, rest) := ReadHour(s).value;
    var wide := |s| >= 2 && IsDigit(s[1]);
    f := Form(0, 0, 0, hour, 0, 0, wide, '.', "", None);
    if wide {
      TwoDigits(s[0], s[1]);
      assert s == [s[0], s[1]] + s[2..];
    } else {
      assert s == [s[0]] + s[1..];
    }
  }

  lemma ZoneRead(s: string) returns (zone: Option<Offset>)
    requires ReadZone(s).Some? && ReadZone(s).value.1 == ""
    ensures zone.Some? ==> zone.value.hours < 100 && zone.value.minutes < 100
    ensures s == match zone case None => ['Z'] case Some(offset) => offset.Text()
  {
    Powers();
    if s[0] == 'Z' {
      zone := None;
      assert s == ['Z'] + s[1..];
    } else {
      DigitsRead(s[1..], 2);
      var (hours, t) := ReadDigits(s[1..], 2).value;
      LiteralRead(t, ':');
      var u := ReadLiteral(t, ':').value;
      DigitsRead(u, 2);
      var (minutes, rest) := ReadDigits(u, 2).value;
      assert Fixed(minutes, 2) + rest == Fixed(minutes, 2);
      zone := Some(Offset(s[0] == '-', hours, minutes));
      assert s == [s[0]] + s[1..];
    }
  }

  lemma FractionRead(s: string) returns (separator: char, digits: string)
    ensures AllDigits(digits) && separator in {'.', ','}
    ensures var rest := ReadFraction(s).1; s == if digits == "" then rest else [separator] + (digits + rest)
  {
    separator, digits := '.', "";
    if |s| >= 2 && (s[0] == '.' || s[0] == ',') && IsDigit(s[1]) {
      var n := DigitSpan(s[1..]);
      separator, digits := s[0], s[1..][..n];
      assert s[1..] == digits + s[1..][n..] && s == [s[0]] + s[1..];
    }
  }

  lemma DateRead(s: string)
    requires ReadDate(s).Some?
    ensures var ((year, month, day), rest) := ReadDate(s).value;
            && year < 10000 && month < 100 && day < 100
            && s == Fixed(year, 4) + (['-'] + (Fixed(month, 2) + (['-'] + (Fixed(day, 2) + rest))))
  {
    Powers();
    hide ReadDigits, ReadLiteral;
    DigitsRead(s, 4);
    var a := ReadDigits(s, 4).value.1;
    LiteralRead(a, '-');
    var b := ReadLiteral(a, '-').value;
    DigitsRead(b, 2);
    var c := ReadDigits(b, 2).value.1;
    LiteralRead(c, '-');
    DigitsRead(ReadLiteral(c, '-').value, 2);
  }

  lemma ClockRead(s: string) returns (f: Form)
    requires ReadClock(s).Some?
    ensures var ((hour, minute, second), rest) := ReadClock(s).value;
            && f.hour == hour < (if f.wide then 100 else 10) && minute < 100 && second < 100
            && s == f.HourText() + ([':'] + (Fixed(minute, 2) + ([':'] + (Fixed(second, 2) + rest))))
  {
    Powers();
    hide ReadDigits, ReadLiteral, ReadHour;
    f := HourRead(s);
    var a := ReadHour(s).value.1;
    LiteralRead(a, ':');
    var b := ReadLiteral(a, ':').value;
    DigitsRead(b, 2);
    var c := ReadDigits(b, 2).value.1;
    LiteralRead(c, ':');
    DigitsRead(ReadLiteral(c, ':').value, 2);
  }

  /** Whatever is read as an instant is one of these texts. */
  lemma OnlyFormsAreRead(s: string) returns (f: Form)
    requires ParseTime(s).Some?
    ensures f.Valid() && f.Denotes() && s == f.Text() && f.Is(ParseTime(s).value)
  {
    hide ReadDate, ReadClock, ReadFraction, ReadZone, Form.HourText, Offset.Text, Form.Is, Form.Denotes;
    DateRead(s);
    var ((year, month, day), a) := ReadDate(s).value;
    LiteralRead(a, 'T');
    var b := ReadLiteral(a, 'T').value;
    var hours := ClockRead(b);
    var ((hour, minute, second), c) := ReadClock(b).value;
    var separator, digits := FractionRead(c);
    var zone := ZoneRead(ReadFraction(c).1);
    f := Form(year, month, day, hour, minute, second, hours.wide, separator, digits, zone);
    SameHour(f, hours);
    assert s == f.Text();
    FormsAreRead(f);
  }

  lemma SameHour(f: Form, g: Form)
    requires f.hour == g.hour < (if f.wide then 100 else 10) && f.wide == g.wide
    ensures f.HourText() == g.HourText()
  {
  }

  /**
    Canonicalizing a boundary of any form: it fails exactly when the parts denote
    no instant, and otherwise gives the canonical text of that instant.
   */
  lemma BoundariesOfForms(f: Form)
    requires f.Valid()
    ensures if f.Denotes()
            then ParseTime(f.Text()).Some? && f.Is(ParseTime(f.Text()).value)
                 && CanonicalBoundary(f.Text()) == Ok(CanonicalTime(ParseTime(f.Text()).value))
            else CanonicalBoundary(f.Text()).Err?
  {
    hide ParseTime, CanonicalTime, Form.Denotes, Form.Is;
    FormsAreRead(f);
    assert f.Text() != "" by {
      assert |Fixed(f.year, 4)| == 4;
    }
  }
}
