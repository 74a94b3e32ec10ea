/**
  The persisted form of a knowledge validity boundary: fixed-width UTC text with
  nine fraction digits, chosen so that string order in SQLite is time order.
  The reader follows Go's `time.Parse` with the RFC3339Nano layout, including
  what it accepts beyond RFC 3339 (one-digit hours, a decimal comma, offsets up
  to 24:60).
 */
module KnowledgeTime {
  import opened Wrappers
  import opened Text
  import opened Calendar

  // Writing

  /** A year as Go formats it: at least four digits, a sign when negative. */
  function YearText(year: int): string {
    if year < 0 then ['-'] + (if -year < 10000 then Fixed(-year, 4) else Decimal(-year))
    else if year < 10000 then Fixed(year, 4) else Decimal(year)
  }

  /** Everything after the year, then `tail`. */
  function AfterYear(date: Date, clock: Clock, tail: string): string {
    ['-'] + (Fixed(date.month, 2) + (['-'] + (Fixed(date.day, 2) + (['T'] + ClockText(clock, tail)))))
  }

  function ClockText(clock: Clock, tail: string): string {
    Fixed(clock.hour, 2) + ([':'] + (Fixed(clock.minute, 2) + ([':'] + (Fixed(clock.second, 2) +
    (['.'] + (Fixed(clock.nano, 9) + tail))))))
  }

  function TimeText(date: Date, clock: Clock, zone: string): string {
    YearText(date.year) + AfterYear(date, clock, zone)
  }

  /** `CanonicalKnowledgeTime`. */
  function CanonicalTime(i: Instant): string
    requires i.Valid()
  {
    TimeText(DateOf(i), ClockOf(i), ['Z'])
  }

  /** An offset from UTC as RFC 3339 writes it. */
  datatype Offset = Offset(negative: bool, hours: nat, minutes: nat) {
    predicate Valid() {
      hours <= 24 && minutes <= 60
    }

    function Seconds(): int {
      (if negative then -1 else 1) * (3600 * hours + 60 * minutes)
    }

    function Text(): string {
      [if negative then '-' else '+'] + (Fixed(hours, 2) + ([':'] + Fixed(minutes, 2)))
    }
  }

  /** The same instant written on a clock that runs at `offset` from UTC. */
  function TimeAt(i: Instant, offset: Offset): string
    requires i.Valid()
  {
    var here := Instant(i.sec + offset.Seconds(), i.nano);
    TimeText(DateOf(here), ClockOf(here), offset.Text())
  }

  // Reading

  function ReadLiteral(s: string, c: char): Option<string> {
    if s != "" && s[0] == c then Some(s[1..]) else None
  }

  function ReadDigits(s: string, n: nat): Option<(nat, string)> {
    if n <= |s| && AllDigits(s[..n]) then Some((DigitsValue(s[..n]), s[n..])) else None
  }

  /** An hour may lack its leading zero. */
  function ReadHour(s: string): Option<(nat, string)> {
    if |s| >= 1 && IsDigit(s[0]) then
      if |s| >= 2 && IsDigit(s[1]) then Some((10 * DigitOf(s[0]) + DigitOf(s[1]), s[2..]))
      else Some((DigitOf(s[0]), s[1..]))
    else None
  }

  /** Digits after the point, read to nanoseconds: more than nine are cut, fewer are scaled. */
  function Nanoseconds(digits: string): (n: nat)
    requires AllDigits(digits)
  {
    if |digits| >= 9 then DigitsValue(digits[..9])
    else DigitsValue(digits) * Pow10(9 - |digits|)
  }

  function ReadFraction(s: string): (nat, string) {
    if |s| >= 2 && (s[0] == '.' || s[0] == ',') && IsDigit(s[1]) then
      var n := DigitSpan(s[1..]);
      (Nanoseconds(s[1..][..n]), s[1..][n..])
    else (0, s)
  }

  function ReadZone(s: string): Option<(int, string)> {
    if s != "" && s[0] == 'Z' then Some((0, s[1..]))
    else if s == "" || (s[0] != '+' && s[0] != '-') then None
    else
      var (hours, t) :- ReadDigits(s[1..], 2);
      var u :- ReadLiteral(t, ':');
      var (minutes, rest) :- ReadDigits(u, 2);
      if hours > 24 || minutes > 60 then None
      else Some((Offset(s[0] == '-', hours, minutes).Seconds(), rest))
  }

  function ReadDate(s: string): Option<((nat, nat, nat), string)> {
    var (year, a) :- ReadDigits(s, 4);
    var b :- ReadLiteral(a, '-');
    var (month, c) :- ReadDigits(b, 2);
    var d :- ReadLiteral(c, '-');
    var (day, rest) :- ReadDigits(d, 2);
    Some(((year, month, day), rest))
  }

  function ReadClock(s: string): Option<((nat, nat, nat), string)> {
    var (hour, a) :- ReadHour(s);
    var b :- ReadLiteral(a, ':');
    var (minute, c) :- ReadDigits(b, 2);
    var d :- ReadLiteral(c, ':');
    var (second, rest) :- ReadDigits(d, 2);
    Some(((hour, minute, second), rest))
  }

  /** `time.Parse(time.RFC3339Nano, s)`. */
  function ParseTime(s: string): (r: Option<Instant>)
    ensures r.Some? ==> r.value.Valid()
  {
    var ((year, month, day), a) :- ReadDate(s);
    var b :- ReadLiteral(a, 'T');
    var ((hour, minute, second), c) :- ReadClock(b);
    var (nano, d) := ReadFraction(c);
    var (offset, rest) :- ReadZone(d);
    if rest != "" then None
    else FromFields(Date(year, month, day), Clock(hour, minute, second, nano), offset)
  }

  /** The instant of valid local fields on a clock `offset` seconds from UTC. */
  function FromFields(date: Date, clock: Clock, offset: int): (r: Option<Instant>)
    ensures r.Some? ==> r.value.Valid()
  {
    if date.Valid() && clock.Valid() then Some(Instant(InstantOf(date, clock).sec - offset, clock.nano)) else None
  }

  function YearOf(i: Instant): int {
    DateOf(i).year
  }

  /** `ParseKnowledgeTimeBoundary`: only the empty string is an open bound. */
  function ParseBoundary(s: string): Result<Option<Instant>, ()> {
    if s == "" then Ok(None)
    else
      match ParseTime(s)
      case None => Err(())
      case Some(i) => Ok(Some(i))
  }

  function Closed(bound: Option<Instant>): (s: string)
    requires bound.Some? ==> bound.value.Valid()
  {
    if bound.Some? then CanonicalTime(bound.value) else ""
  }

  /** `CanonicalKnowledgeTimeBoundary`. */
  function CanonicalBoundary(s: string): Result<string, ()> {
    var bound :- ParseBoundary(s);
    Ok(Closed(bound))
  }

  /** `CanonicalKnowledgeInterval`: a closed interval must not end before it starts. */
  function CanonicalInterval(from: string, to: string): Result<(string, string), ()> {
    var start :- ParseBoundary(from);
    var end :- ParseBoundary(to);
    if start.Some? && end.Some? && end.value.Before(start.value) then Err(())
    else Ok((Closed(start), Closed(end)))
  }

  // Reading back

  lemma ReadFixed(n: nat, width: nat, rest: string)
    requires n < Pow10(width)
    ensures ReadDigits(Fixed(n, width) + rest, width) == Some((n, rest))
  {
    FixedValue(n, width);
    assert (Fixed(n, width) + rest)[..width] == Fixed(n, width);
    assert (Fixed(n, width) + rest)[width..] == rest;
  }

  lemma Powers()
    ensures Pow10(2) == 100 && Pow10(4) == 10000 && Pow10(9) == 1_000_000_000
  {
    assert Pow10(4) == 10 * 10 * 10 * 10 * Pow10(0);
    assert Pow10(9) == 10 * 10 * 10 * 10 * 10 * Pow10(4);
  }

  lemma ReadTwoHour(n: nat, rest: string)
    requires n < 100
    ensures ReadHour(Fixed(n, 2) + rest) == Some((n, rest))
  {
    assert Fixed(n, 2) == [DigitChar(n / 10), DigitChar(n % 10)] by {
      assert Fixed(n, 2) == Fixed(n / 10, 1) + [DigitChar(n % 10)];
      assert Fixed(n / 10, 1) == Fixed(n / 100, 0) + [DigitChar(n / 10)];
    }
    assert (Fixed(n, 2) + rest)[2..] == rest;
  }

  lemma ReadNanoFraction(nano: nat, rest: string)
    requires nano < 1_000_000_000
    requires rest == "" || !IsDigit(rest[0])
    ensures ReadFraction(['.'] + (Fixed(nano, 9) + rest)) == (nano, rest)
  {
    Powers();
    var digits := Fixed(nano, 9);
    var s := ['.'] + (digits + rest);
    assert s[1..] == digits + rest;
    assert s[1] == digits[0];
    SpanOfDigits(digits, rest);
    FixedValue(nano, 9);
    assert (digits + rest)[..9] == digits && (digits + rest)[9..] == rest;
    assert digits[..9] == digits;
  }

  lemma ReadOffset(offset: Offset)
    requires offset.Valid()
    ensures ReadZone(offset.Text()) == Some((offset.Seconds(), ""))
    ensures offset.Text() != "" && !IsDigit(offset.Text()[0])
  {
    Powers();
    var s := offset.Text();
    var minutes := Fixed(offset.minutes, 2);
    assert s[1..] == Fixed(offset.hours, 2) + ([':'] + minutes);
    ReadFixed(offset.hours, 2, [':'] + minutes);
    assert ([':'] + minutes)[1..] == minutes;
    ReadFixed(offset.minutes, 2, "");
    assert minutes + "" == minutes;
  }

  lemma ReadDateText(date: Date, rest: string)
    requires date.Valid() && 0 <= date.year < 10000
    ensures ReadDate(YearText(date.year) + (['-'] + (Fixed(date.month, 2) + (['-'] + (Fixed(date.day, 2) + rest))))) ==
            Some(((date.year, date.month, date.day), rest))
  {
    Powers();
    ReadFixed(date.day, 2, rest);
    var day := Fixed(date.day, 2) + rest;
    ReadFixed(date.month, 2, ['-'] + day);
    var month := Fixed(date.month, 2) + (['-'] + day);
    ReadFixed(date.year, 4, ['-'] + month);
    assert (['-'] + day)[1..] == day && (['-'] + month)[1..] == month;
  }

  lemma ReadClockText(clock: Clock, tail: string)
    requires clock.Valid()
    requires tail == "" || !IsDigit(tail[0])
    ensures var fraction := ['.'] + (Fixed(clock.nano, 9) + tail);
            && ReadClock(ClockText(clock, tail)) == Some(((clock.hour, clock.minute, clock.second), fraction))
            && ReadFraction(fraction) == (clock.nano, tail)
  {
    Powers();
    var fraction := ['.'] + (Fixed(clock.nano, 9) + tail);
    ReadNanoFraction(clock.nano, tail);
    ReadFixed(clock.second, 2, fraction);
    var second := Fixed(clock.second, 2) + fraction;
    ReadFixed(clock.minute, 2, [':'] + second);
    var minute := Fixed(clock.minute, 2) + ([':'] + second);
    ReadTwoHour(clock.hour, [':'] + minute);
    assert ([':'] + second)[1..] == second && ([':'] + minute)[1..] == minute;
  }

  lemma ReadFields(date: Date, clock: Clock, tail: string, offset: int)
    requires date.Valid() && clock.Valid() && 0 <= date.year < 10000
    requires tail == "" || !IsDigit(tail[0])
    requires ReadZone(tail) == Some((offset, ""))
    ensures ParseTime(TimeText(date, clock, tail)) == FromFields(date, clock, offset)
  {
    var time := ['T'] + ClockText(clock, tail);
    ReadDateText(date, time);
    ReadClockText(clock, tail);
    var fraction := ['.'] + (Fixed(clock.nano, 9) + tail);
    ReadParts(TimeText(date, clock, tail), date, clock, time, ClockText(clock, tail), fraction, tail, offset);
  }

  lemma ReadParts(s: string, date: Date, clock: Clock, time: string, clockText: string, fraction: string,
    zone: string, offset: int)
    requires date.year >= 0 && ReadDate(s) == Some(((date.year, date.month, date.day), time))
    requires time == ['T'] + clockText
    requires ReadClock(clockText) == Some(((clock.hour, clock.minute, clock.second), fraction))
    requires ReadFraction(fraction) == (clock.nano, zone)
    requires ReadZone(zone) == Some((offset, ""))
    ensures ParseTime(s) == FromFields(date, clock, offset)
  {
    assert time[1..] == clockText;
  }

  lemma ReadRendered(i: Instant, date: Date, clock: Clock, s: string, tail: string, seconds: int)
    requires date.Valid() && clock.Valid() && InstantOf(date, clock) == i
    requires 0 <= date.year < 10000 && s == TimeText(date, clock, tail)
    requires tail != "" && !IsDigit(tail[0]) && ReadZone(tail) == Some((seconds, ""))
    ensures ParseTime(s) == Some(Instant(i.sec - seconds, i.nano))
  {
    hide ParseTime, TimeText;
    ReadFields(date, clock, tail, seconds);
  }

  lemma BoundaryOfTime(s: string, i: Instant)
    requires i.Valid() && ParseTime(s) == Some(i)
    ensures CanonicalBoundary(s) == Ok(CanonicalTime(i))
  {
    assert s != "" by {
      assert ReadDigits("", 4).None?;
    }
  }

  /** Reading any offset's rendering of an instant gives the instant back. */
  lemma OffsetsNeverChangeTheInstant(i: Instant, offset: Offset)
    requires i.Valid() && offset.Valid()
    requires 0 <= YearOf(Instant(i.sec + offset.Seconds(), i.nano)) < 10000
    ensures ParseTime(TimeAt(i, offset)) == Some(i)
    ensures CanonicalBoundary(TimeAt(i, offset)) == Ok(CanonicalTime(i))
  {
    hide ParseTime, TimeText, DateOf, ClockOf, InstantOf, CanonicalTime, CanonicalBoundary, ReadZone, Offset.Text,
      Offset.Seconds;
    var here := Instant(i.sec + offset.Seconds(), i.nano);
    FieldsOfInstant(here);
    ReadOffset(offset);
    ReadRendered(here, DateOf(here), ClockOf(here), TimeAt(i, offset), offset.Text(), offset.Seconds());
    BoundaryOfTime(TimeAt(i, offset), i);
  }

  /**
    The canonical string reads back as its instant exactly when the UTC year has
    four digits; canonicalizing is then idempotent. Other years come from
    boundaries whose offset carries them over the edge of year 0 or 9999.
   */
  lemma CanonicalReadsBackExactlyInRange(i: Instant)
    requires i.Valid()
    ensures 0 <= YearOf(i) < 10000 ==>
              ParseTime(CanonicalTime(i)) == Some(i) && CanonicalBoundary(CanonicalTime(i)) == Ok(CanonicalTime(i))
    ensures !(0 <= YearOf(i) < 10000) ==> ParseTime(CanonicalTime(i)) == None
  {
    hide ParseTime, YearText, AfterYear, DateOf, ClockOf;
    if 0 <= YearOf(i) < 10000 {
      CanonicalReadsBack(i);
    } else {
      UnreadableYear(YearOf(i), AfterYear(DateOf(i), ClockOf(i), ['Z']));
    }
  }

  lemma CanonicalReadsBack(i: Instant)
    requires i.Valid() && 0 <= YearOf(i) < 10000
    ensures ParseTime(CanonicalTime(i)) == Some(i) && CanonicalBoundary(CanonicalTime(i)) == Ok(CanonicalTime(i))
  {
    hide ParseTime, TimeText, DateOf, ClockOf, InstantOf;
    assert ['Z'][1..] == "";
    FieldsOfInstant(i);
    ReadRendered(i, DateOf(i), ClockOf(i), CanonicalTime(i), ['Z'], 0);
    BoundaryOfTime(CanonicalTime(i), i);
  }

  /** A year is written in four digits, or in as many as it has, after a sign when it is negative. */
  lemma YearsAreWritten(year: int)
    ensures var text := YearText(year);
            var digits := if year < 0 then text[1..] else text;
            && text != "" && (text[0] == '-' <==> year < 0)
            && AllDigits(digits) && DigitsValue(digits) == (if year < 0 then -year else year)
            && (if -10000 < year < 10000 then |digits| == 4 else |digits| > 4)
  {
    Powers();
    var n := if year < 0 then -year else year;
    DecimalValue(n);
    if n < 10000 {
      FixedValue(n, 4);
      assert IsDigit(Fixed(n, 4)[0]);
    } else {
      DecimalLength(n, 4);
      assert IsDigit(Decimal(n)[0]);
    }
  }

  lemma UnreadableYear(year: int, rest: string)
    requires !(0 <= year < 10000)
    ensures ParseTime(YearText(year) + rest) == None
  {
    var s := YearText(year) + rest;
    if year < 0 {
      assert s[0] == '-';
      assert |s| >= 4 ==> s[..4][0] == '-';
    } else {
      LongDecimal(year);
      var digits := Decimal(year);
      assert s[4] == digits[4];
      assert s[4..][0] == s[4];
    }
  }

  lemma {:induction false} DecimalLength(n: nat, k: nat)
    requires n >= Pow10(k)
    ensures |Decimal(n)| > k
    decreases k
  {
    if k > 0 {
      assert n / 10 >= Pow10(k - 1);
      DecimalLength(n / 10, k - 1);
    }
  }

  lemma LongDecimal(n: nat)
    requires n >= 10000
    ensures |Decimal(n)| > 4
  {
    Powers();
    DecimalLength(n, 4);
  }

  // Order

  /** Fields of one width compare as numbers, and ties pass to what follows. */
  lemma CompareFixed(m: nat, n: nat, width: nat, s: string, t: string)
    requires m < Pow10(width) && n < Pow10(width)
    requires m < n || (m == n && Less(s, t))
    ensures Less(Fixed(m, width) + s, Fixed(n, width) + t)
  {
    if m < n {
      FixedOrder(m, n, width);
      LessDecidedEarly(Fixed(m, width), Fixed(n, width), s, t);
    } else {
      LessCommonPrefix(Fixed(m, width), s, t);
    }
  }

  predicate ClockBefore(a: Clock, b: Clock) {
    || a.hour < b.hour
    || (a.hour == b.hour && (a.minute < b.minute
        || (a.minute == b.minute && (a.second < b.second
            || (a.second == b.second && a.nano < b.nano)))))
  }

  lemma ClockOrder(a: Clock, b: Clock, tail: string)
    requires a.Valid() && b.Valid() && ClockBefore(a, b)
    ensures Less(ClockText(a, tail), ClockText(b, tail))
  {
    Powers();
    var x3, y3 := Fixed(a.nano, 9) + tail, Fixed(b.nano, 9) + tail;
    var x2, y2 := Fixed(a.second, 2) + (['.'] + x3), Fixed(b.second, 2) + (['.'] + y3);
    var x1, y1 := Fixed(a.minute, 2) + ([':'] + x2), Fixed(b.minute, 2) + ([':'] + y2);
    if a.nano < b.nano {
      CompareFixed(a.nano, b.nano, 9, tail, tail);
    }
    LessCommonPrefix(['.'], x3, y3);
    if a.second < b.second || (a.second == b.second && a.nano < b.nano) {
      CompareFixed(a.second, b.second, 2, ['.'] + x3, ['.'] + y3);
    }
    LessCommonPrefix([':'], x2, y2);
    if a.minute < b.minute || (a.minute == b.minute && Less(x2, y2)) {
      CompareFixed(a.minute, b.minute, 2, [':'] + x2, [':'] + y2);
    }
    LessCommonPrefix([':'], x1, y1);
    CompareFixed(a.hour, b.hour, 2, [':'] + x1, [':'] + y1);
  }

  lemma AfterYearOrder(d: Date, e: Date, a: Clock, b: Clock, tail: string)
    requires d.Valid() && e.Valid() && a.Valid() && b.Valid() && d.year == e.year
    requires DateBefore(d, e) || (d == e && ClockBefore(a, b))
    ensures Less(AfterYear(d, a, tail), AfterYear(e, b, tail))
  {
    Powers();
    var x3, y3 := ClockText(a, tail), ClockText(b, tail);
    var x2, y2 := Fixed(d.day, 2) + (['T'] + x3), Fixed(e.day, 2) + (['T'] + y3);
    var x1, y1 := Fixed(d.month, 2) + (['-'] + x2), Fixed(e.month, 2) + (['-'] + y2);
    if d == e {
      ClockOrder(a, b, tail);
    }
    LessCommonPrefix(['T'], x3, y3);
    if d.day < e.day || (d.day == e.day && Less(x3, y3)) {
      CompareFixed(d.day, e.day, 2, ['T'] + x3, ['T'] + y3);
    }
    LessCommonPrefix(['-'], x2, y2);
    CompareFixed(d.month, e.month, 2, ['-'] + x2, ['-'] + y2);
    LessCommonPrefix(['-'], x1, y1);
  }

  lemma SecondsOrder(s: nat, t: nat)
    requires s < t
    ensures s / 3600 < t / 3600 || (s / 3600 == t / 3600 && (s / 60 % 60 < t / 60 % 60
            || (s / 60 % 60 == t / 60 % 60 && s % 60 < t % 60)))
  {
    assert s / 60 == 60 * (s / 3600) + s / 60 % 60;
    assert t / 60 == 60 * (t / 3600) + t / 60 % 60;
  }

  lemma BeforeByFields(a: Instant, b: Instant)
    requires a.Valid() && b.Valid() && a.Before(b)
    ensures DateBefore(DateOf(a), DateOf(b)) || (DateOf(a) == DateOf(b) && ClockBefore(ClockOf(a), ClockOf(b)))
  {
    DatesAreDays(DateOf(a), DateOf(b));
    if a.sec / 86400 == b.sec / 86400 && a.sec < b.sec {
      SecondsOrder(a.sec % 86400, b.sec % 86400);
    }
  }

  lemma CanonicalOrderOneWay(a: Instant, b: Instant)
    requires a.Valid() && b.Valid() && a.Before(b)
    requires 0 <= YearOf(a) < 10000 && 0 <= YearOf(b) < 10000
    ensures Less(CanonicalTime(a), CanonicalTime(b))
  {
    Powers();
    BeforeByFields(a, b);
    var x, y := AfterYear(DateOf(a), ClockOf(a), ['Z']), AfterYear(DateOf(b), ClockOf(b), ['Z']);
    if YearOf(a) == YearOf(b) {
      AfterYearOrder(DateOf(a), DateOf(b), ClockOf(a), ClockOf(b), ['Z']);
    }
    CompareFixed(YearOf(a), YearOf(b), 4, x, y);
  }

  /** String order is time order for four-digit UTC years. */
  lemma CanonicalOrder(a: Instant, b: Instant)
    requires a.Valid() && b.Valid()
    requires 0 <= YearOf(a) < 10000 && 0 <= YearOf(b) < 10000
    ensures Less(CanonicalTime(a), CanonicalTime(b)) <==> a.Before(b)
    ensures CanonicalTime(a) == CanonicalTime(b) <==> a == b
  {
    if a.Before(b) {
      CanonicalOrderOneWay(a, b);
      LessAsymmetric(CanonicalTime(a), CanonicalTime(b));
    } else if b.Before(a) {
      CanonicalOrderOneWay(b, a);
      LessAsymmetric(CanonicalTime(b), CanonicalTime(a));
    } else {
      LessIrreflexive(CanonicalTime(a));
    }
  }

  // Intervals

  /** A local year of four digits and an offset of at most 24:60 keep the UTC year next to that range. */
  lemma ParsedYears(s: string)
    requires ParseTime(s).Some?
    ensures -1 <= YearOf(ParseTime(s).value) <= 10000
  {
    var date, clock, offset := ParsedFields(s);
    hide ParseTime;
    ShiftedYear(date, clock, offset);
  }

  lemma ParsedFields(s: string) returns (date: Date, clock: Clock, offset: int)
    requires ParseTime(s).Some?
    ensures date.Valid() && clock.Valid() && 0 <= date.year < 10000 && -90000 <= offset <= 90000
    ensures ParseTime(s) == Some(Instant(InstantOf(date, clock).sec - offset, clock.nano))
  {
    hide ReadClock, ReadFraction, DigitsValue, InstantOf;
    var ((year, month, day), a) := ReadDate(s).value;
    Powers();
    DigitsBelow(s[..4]);
    var b := ReadLiteral(a, 'T').value;
    var ((hour, minute, second), c) := ReadClock(b).value;
    var (nano, d) := ReadFraction(c);
    date, clock, offset := Date(year, month, day), Clock(hour, minute, second, nano), ReadZone(d).value.0;
  }

  lemma ShiftedYear(date: Date, clock: Clock, offset: int)
    requires date.Valid() && clock.Valid() && 0 <= date.year < 10000
    requires -90000 <= offset <= 90000
    ensures -1 <= YearOf(Instant(InstantOf(date, clock).sec - offset, clock.nano)) <= 10000
  {
    var day := DayNumber(date);
    DayWithinYear(date);
    YearsMonotone(0, date.year);
    YearsMonotone(date.year + 1, 10000);
    var shifted := (InstantOf(date, clock).sec - offset) / 86400;
    assert day - 2 <= shifted <= day + 2;
    YearLength(-1);
    YearLength(10000);
    var result := DateOfDay(shifted);
    DayWithinYear(result);
    if result.year > 10000 {
      YearsMonotone(10001, result.year);
    } else if result.year < -1 {
      YearsMonotone(result.year + 1, -1);
    }
  }

  lemma SameYearOrder(a: Instant, b: Instant)
    requires a.Valid() && b.Valid() && a.Before(b) && YearOf(a) == YearOf(b)
    ensures Less(CanonicalTime(a), CanonicalTime(b))
  {
    hide YearText, AfterYear, DateOf, ClockOf;
    BeforeByFields(a, b);
    AfterYearOrder(DateOf(a), DateOf(b), ClockOf(a), ClockOf(b), ['Z']);
    LessCommonPrefix(YearText(YearOf(a)), AfterYear(DateOf(a), ClockOf(a), ['Z']),
      AfterYear(DateOf(b), ClockOf(b), ['Z']));
  }

  lemma TenThousand()
    ensures YearText(10000) == Fixed(1000, 4) + ['0']
  {
    assert Decimal(1000) == Fixed(1000, 4) by {
      assert Decimal(100) == Decimal(10) + ['0'] && Decimal(10) == Decimal(1) + ['0'];
      assert Fixed(100, 3) == Fixed(10, 2) + ['0'] && Fixed(10, 2) == Fixed(1, 1) + ['0'];
      assert Fixed(1, 1) == Fixed(0, 0) + ['1'];
    }
    assert Decimal(10000) == Decimal(1000) + ['0'];
  }

  /** Year 10000 sorts after the years up to 1000 and before the other four-digit years. */
  lemma TenThousandSorts(year: nat, rest: string, tail: string)
    requires year < 10000
    ensures year <= 1000 ==> Less(YearText(year) + (['-'] + rest), YearText(10000) + tail)
    ensures year > 1000 ==> Less(YearText(10000) + tail, YearText(year) + (['-'] + rest))
  {
    hide Fixed, Decimal;
    Powers();
    TenThousand();
    assert YearText(10000) + tail == Fixed(1000, 4) + (['0'] + tail);
    if year <= 1000 {
      CompareFixed(year, 1000, 4, ['-'] + rest, ['0'] + tail);
    } else {
      CompareFixed(1000, year, 4, ['0'] + tail, ['-'] + rest);
    }
  }

  lemma NegativeYearSorts(a: Instant, b: Instant)
    requires a.Valid() && b.Valid() && YearOf(a) < 0 <= YearOf(b)
    ensures Less(CanonicalTime(a), CanonicalTime(b))
  {
    hide AfterYear, DateOf, ClockOf;
    var s, t := CanonicalTime(a), CanonicalTime(b);
    assert s[0] == '-';
    assert t[0] == YearText(YearOf(b))[0] && IsDigit(YearText(YearOf(b))[0]);
  }

  /** The one way string order can contradict time order between parsed boundaries. */
  predicate CrossesYearTenThousand(a: Instant, b: Instant) {
    YearOf(b) == 10000 && 1000 < YearOf(a) < 10000
  }

  lemma TenThousandOrder(a: Instant, b: Instant)
    requires a.Valid() && b.Valid() && YearOf(b) == 10000 && 0 <= YearOf(a) < 10000
    ensures Less(CanonicalTime(b), CanonicalTime(a)) <==> CrossesYearTenThousand(a, b)
  {
    hide YearText, DateOf, ClockOf;
    var rest := Fixed(DateOf(a).month, 2)
      + (['-'] + (Fixed(DateOf(a).day, 2) + (['T'] + ClockText(ClockOf(a), ['Z']))));
    var tail := AfterYear(DateOf(b), ClockOf(b), ['Z']);
    assert CanonicalTime(a) == YearText(YearOf(a)) + (['-'] + rest);
    TenThousandSorts(YearOf(a), rest, tail);
    if YearOf(a) <= 1000 {
      LessAsymmetric(CanonicalTime(a), CanonicalTime(b));
    }
  }

  /**
    Of two parsed boundaries in order, the canonical strings are in order too,
    except exactly when an offset carries the later one into year 10000 while
    the earlier one lies in the years 1001 to 9999.
   */
  lemma ParsedOrder(a: Instant, b: Instant)
    requires a.Valid() && b.Valid() && !b.Before(a)
    requires -1 <= YearOf(a) <= 10000 && -1 <= YearOf(b) <= 10000
    ensures Less(CanonicalTime(b), CanonicalTime(a)) <==> CrossesYearTenThousand(a, b)
  {
    hide DateOf, ClockOf, CanonicalTime;
    if a == b {
      LessIrreflexive(CanonicalTime(a));
    } else {
      BeforeByFields(a, b);
      assert YearOf(a) <= YearOf(b);
      if YearOf(a) == YearOf(b) {
        SameYearOrder(a, b);
        LessAsymmetric(CanonicalTime(a), CanonicalTime(b));
      } else if YearOf(a) < 0 {
        NegativeYearSorts(a, b);
        LessAsymmetric(CanonicalTime(a), CanonicalTime(b));
      } else if YearOf(b) < 10000 {
        CanonicalOrder(b, a);
      } else {
        TenThousandOrder(a, b);
      }
    }
  }

  /** An accepted closed interval, and exactly when its strings are in order. */
  lemma ClosedIntervalOrder(from: string, to: string)
    requires from != "" && to != "" && CanonicalInterval(from, to).Ok?
    ensures var (start, end) := CanonicalInterval(from, to).value;
            var a, b := ParseTime(from), ParseTime(to);
            && a.Some? && b.Some? && !b.value.Before(a.value)
            && start == CanonicalTime(a.value) && end == CanonicalTime(b.value)
            && (!Less(end, start) <==> !CrossesYearTenThousand(a.value, b.value))
  {
    hide ParseTime, CanonicalTime, YearOf;
    ParsedYears(from);
    ParsedYears(to);
    ParsedOrder(ParseTime(from).value, ParseTime(to).value);
  }

  /**
    Any interval, open or closed: it is accepted exactly when both bounds are and
    are not reversed, and then each end is the canonical form of its own bound.
   */
  lemma IntervalsAreTheirBounds(from: string, to: string)
    ensures CanonicalInterval(from, to).Ok? <==>
            && (from == "" || ParseTime(from).Some?) && (to == "" || ParseTime(to).Some?)
            && (from != "" && to != "" ==> !ParseTime(to).value.Before(ParseTime(from).value))
    ensures CanonicalInterval(from, to).Ok? ==>
              var (start, end) := CanonicalInterval(from, to).value;
              && start == (if from == "" then "" else CanonicalTime(ParseTime(from).value))
              && end == (if to == "" then "" else CanonicalTime(ParseTime(to).value))
  {
    hide ParseTime, CanonicalTime;
  }

  /** A closed interval is refused exactly when a bound is malformed or the times are reversed. */
  lemma ClosedIntervalAcceptance(from: string, to: string)
    requires from != "" && to != ""
    ensures CanonicalInterval(from, to).Ok? <==>
            ParseTime(from).Some? && ParseTime(to).Some? && !ParseTime(to).value.Before(ParseTime(from).value)
  {
    hide ParseTime, CanonicalTime;
  }

  /** 9999-12-31T23:00:00Z, and half an hour past midnight on the first day of year 10000. */
  const LAST_EVENING := InstantOf(Date(9999, 12, 31), Clock(23, 0, 0, 0))
  const NEW_YEAR := InstantOf(Date(10000, 1, 1), Clock(0, 30, 0, 0))

  lemma ExampleYears()
    ensures LAST_EVENING.Valid() && YearOf(LAST_EVENING) == 9999
    ensures NEW_YEAR.Valid() && YearOf(NEW_YEAR) == 10000
    ensures LAST_EVENING.Before(NEW_YEAR)
    ensures YearOf(Instant(NEW_YEAR.sec - 3600, NEW_YEAR.nano)) == 9999
  {
    hide DateOf, ClockOf, DaysBeforeMonth, DaysBeforeYear;
    var date := Date(9999, 12, 31);
    assert DaysInMonth(9999, 12) == 31;
    InstantOfFields(date, Clock(23, 0, 0, 0));
    InstantOfFields(Date(10000, 1, 1), Clock(0, 30, 0, 0));
    InstantOfFields(date, Clock(23, 30, 0, 0));
    YearLength(9999);
    MonthsFillYear(9999, 12);
    FirstDay(10000);
    assert DayNumber(Date(10000, 1, 1)) == DayNumber(date) + 1;
    assert InstantOf(date, Clock(23, 30, 0, 0)) == Instant(NEW_YEAR.sec - 3600, NEW_YEAR.nano);
  }

  lemma FirstDay(year: int)
    ensures DayNumber(Date(year, 1, 1)) == DaysBeforeYear(year)
  {
  }

  /**
    An accepted interval whose canonical strings are reversed: from
    9999-12-31T23:00:00Z to 9999-12-31T23:30:00-01:00.
   */
  lemma ReversedStringsExample()
    ensures LAST_EVENING.Valid() && NEW_YEAR.Valid()
    ensures var interval := CanonicalInterval(CanonicalTime(LAST_EVENING), TimeAt(NEW_YEAR, Offset(true, 1, 0)));
            interval.Ok? && Less(interval.value.1, interval.value.0)
  {
    hide ParseTime, CanonicalTime, TimeAt, YearOf, InstantOf;
    ExampleYears();
    CanonicalReadsBack(LAST_EVENING);
    OffsetsNeverChangeTheInstant(NEW_YEAR, Offset(true, 1, 0));
    var from, to := CanonicalTime(LAST_EVENING), TimeAt(NEW_YEAR, Offset(true, 1, 0));
    TimeIsNotEmpty(from);
    TimeIsNotEmpty(to);
    ClosedIntervalAcceptance(from, to);
    ClosedIntervalOrder(from, to);
  }

  lemma TimeIsNotEmpty(s: string)
    requires ParseTime(s).Some?
    ensures s != ""
  {
    assert ReadDigits("", 4).None?;
  }
}
