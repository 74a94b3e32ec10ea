/**
  The proleptic Gregorian calendar in UTC: instants as seconds since the start
  of year 0 plus nanoseconds, and their broken-down fields. The two
  representations determine each other, and order agrees.
 */
module Calendar {

  /** A Go time.Time, location dropped: seconds from 0000-01-01T00:00:00Z and nanoseconds. */
  datatype Instant = Instant(sec: int, nano: nat) {
    predicate Valid() {
      nano < 1_000_000_000
    }

    predicate Before(other: Instant) {
      sec < other.sec || (sec == other.sec && nano < other.nano)
    }
  }

  datatype Date = Date(year: int, month: nat, day: nat) {
    predicate Valid() {
      1 <= month <= 12 && 1 <= day <= DaysInMonth(year, month)
    }
  }

  datatype Clock = Clock(hour: nat, minute: nat, second: nat, nano: nat) {
    predicate Valid() {
      hour < 24 && minute < 60 && second < 60 && nano < 1_000_000_000
    }
  }

  predicate IsLeap(year: int) {
    year % 4 == 0 && (year % 100 != 0 || year % 400 == 0)
  }

  function DaysInMonth(year: int, month: nat): nat
    requires 1 <= month <= 12
  {
    if month == 2 then if IsLeap(year) then 29 else 28
    else if month == 4 || month == 6 || month == 9 || month == 11 then 30
    else 31
  }

  /** Days from 0000-01-01 to the first day of `year`. */
  function DaysBeforeYear(year: int): int {
    365 * year + (year + 3) / 4 - (year + 99) / 100 + (year + 399) / 400
  }

  function DaysBeforeMonth(year: int, month: nat): nat
    requires 1 <= month <= 12
    decreases month
  {
    if month == 1 then 0 else DaysBeforeMonth(year, month - 1) + DaysInMonth(year, month - 1)
  }

  function DaysInYear(year: int): nat {
    if IsLeap(year) then 366 else 365
  }

  /** A century rule check: the closed form counts one more leap year exactly after a leap year. */
  lemma YearLength(year: int)
    ensures DaysBeforeYear(year + 1) == DaysBeforeYear(year) + DaysInYear(year)
  {
    FourYearStep(year);
    CenturyStep(year);
    FourCenturyStep(year);
    CenturiesOf(year);
    LeapCandidates(year);
  }

  lemma CenturiesOf(year: int)
    ensures year % 400 == 0 ==> year % 100 == 0
  {
    if year % 400 == 0 {
      var q := year / 400;
      assert year == 400 * q == 100 * (4 * q);
    }
  }

  lemma LeapCandidates(year: int)
    ensures year % 100 == 0 ==> year % 4 == 0
  {
    if year % 100 == 0 {
      var q := year / 100;
      assert year == 100 * q == 4 * (25 * q);
    }
  }

  lemma FourYearStep(year: int)
    ensures (year + 4) / 4 == (year + 3) / 4 + if year % 4 == 0 then 1 else 0
  {
  }

  lemma CenturyStep(year: int)
    ensures (year + 100) / 100 == (year + 99) / 100 + if year % 100 == 0 then 1 else 0
  {
  }

  lemma FourCenturyStep(year: int)
    ensures (year + 400) / 400 == (year + 399) / 400 + if year % 400 == 0 then 1 else 0
  {
  }

  lemma {:induction false} MonthsFillYear(year: int, month: nat)
    requires 1 <= month <= 12
    ensures DaysBeforeMonth(year, month) + DaysInMonth(year, month) <= DaysInYear(year)
    ensures month == 12 ==> DaysBeforeMonth(year, month) + DaysInMonth(year, month) == DaysInYear(year)
    decreases 12 - month
  {
    if month == 12 {
      assert DaysBeforeMonth(year, 2) == 31;
      assert DaysBeforeMonth(year, 4) == 31 + DaysInMonth(year, 2) + 31;
      assert DaysBeforeMonth(year, 6) == DaysBeforeMonth(year, 4) + 61;
      assert DaysBeforeMonth(year, 8) == DaysBeforeMonth(year, 6) + 61;
      assert DaysBeforeMonth(year, 10) == DaysBeforeMonth(year, 8) + 61;
      assert DaysBeforeMonth(year, 12) == DaysBeforeMonth(year, 10) + 61;
    } else {
      MonthsFillYear(year, month + 1);
      assert DaysBeforeMonth(year, month + 1) == DaysBeforeMonth(year, month) + DaysInMonth(year, month);
    }
  }

  /** The number of the day, 0000-01-01 being day 0. */
  function DayNumber(date: Date): int
    requires 1 <= date.month <= 12
  {
    DaysBeforeYear(date.year) + DaysBeforeMonth(date.year, date.month) + date.day - 1
  }

  function YearOfDay(day: int): (year: int)
    ensures DaysBeforeYear(year) <= day < DaysBeforeYear(year + 1)
  {
    // 400 years are 146097 days; the estimate is off by at most one.
    var guess := 400 * day / 146097;
    assert 146097 * guess <= 400 * day < 146097 * (guess + 1);
    YearLength(guess - 1);
    YearLength(guess);
    YearLength(guess + 1);
    if day < DaysBeforeYear(guess) then guess - 1
    else if day < DaysBeforeYear(guess + 1) then guess
    else guess + 1
  }

  function MonthFrom(year: int, dayOfYear: nat, month: nat): (m: nat)
    requires 1 <= month <= 12
    requires DaysBeforeMonth(year, month) <= dayOfYear < DaysInYear(year)
    ensures 1 <= m <= 12 && DaysBeforeMonth(year, m) <= dayOfYear < DaysBeforeMonth(year, m) + DaysInMonth(year, m)
    decreases 12 - month
  {
    if dayOfYear < DaysBeforeMonth(year, month) + DaysInMonth(year, month) then month
    else
      MonthsFillYear(year, month);
      MonthFrom(year, dayOfYear, month + 1)
  }

  function DateOfDay(day: int): (date: Date)
    ensures date.Valid() && DayNumber(date) == day
  {
    var year := YearOfDay(day);
    YearLength(year);
    var dayOfYear := day - DaysBeforeYear(year);
    var month := MonthFrom(year, dayOfYear, 1);
    Date(year, month, dayOfYear - DaysBeforeMonth(year, month) + 1)
  }

  predicate DateBefore(a: Date, b: Date) {
    a.year < b.year || (a.year == b.year && (a.month < b.month || (a.month == b.month && a.day < b.day)))
  }

  lemma {:induction false} YearsMonotone(a: int, b: int)
    requires a <= b
    ensures DaysBeforeYear(a) <= DaysBeforeYear(b)
    decreases b - a
  {
    if a < b {
      YearsMonotone(a, b - 1);
      YearLength(b - 1);
    }
  }

  lemma {:induction false} MonthsMonotone(year: int, a: nat, b: nat)
    requires 1 <= a < b <= 12
    ensures DaysBeforeMonth(year, a) + DaysInMonth(year, a) <= DaysBeforeMonth(year, b)
    decreases b
  {
    if a < b - 1 {
      MonthsMonotone(year, a, b - 1);
    }
  }

  lemma DayWithinYear(date: Date)
    requires date.Valid()
    ensures DaysBeforeYear(date.year) <= DayNumber(date) < DaysBeforeYear(date.year + 1)
  {
    MonthsFillYear(date.year, date.month);
    YearLength(date.year);
  }

  lemma DateOrder(a: Date, b: Date)
    requires a.Valid() && b.Valid() && DateBefore(a, b)
    ensures DayNumber(a) < DayNumber(b)
  {
    if a.year < b.year {
      DayWithinYear(a);
      DayWithinYear(b);
      YearsMonotone(a.year + 1, b.year);
    } else if a.month < b.month {
      MonthsMonotone(a.year, a.month, b.month);
    }
  }

  /** Every day has one date, and dates sort as days do. */
  lemma DatesAreDays(a: Date, b: Date)
    requires a.Valid() && b.Valid()
    ensures DayNumber(a) < DayNumber(b) <==> DateBefore(a, b)
    ensures DayNumber(a) == DayNumber(b) <==> a == b
  {
    if DateBefore(a, b) {
      DateOrder(a, b);
    } else if a != b {
      DateOrder(b, a);
    }
  }

  /**
    The day counted from March on, where leap days end the year and months have
    their lengths in a fixed rhythm: the same number, without the leap rule and
    without a table of months.
   */
  lemma DaysCountedFromMarch(date: Date)
    requires date.Valid()
    ensures var year := if date.month <= 2 then date.year - 1 else date.year;
            var month := (date.month + 9) % 12;
            DayNumber(date) ==
            365 * year + year / 4 - year / 100 + year / 400 + (153 * month + 2) / 5 + 60 + date.day - 1
  {
    hide DaysBeforeMonth, DaysBeforeYear, IsLeap;
    YearsFromMarch(date.year);
    MonthsBefore(date.year, date.month);
    MonthsFromMarch(date.month);
  }

  lemma MonthsFromMarch(month: nat)
    requires 1 <= month <= 12
    ensures (month + 9) % 12 == if month <= 2 then month + 9 else month - 3
    ensures month <= 2 ==> (153 * (month + 9) + 2) / 5 == 306 + 31 * (month - 1)
  {
  }

  /** Days before a year, with the leap day at the end of the year that begins in March before. */
  lemma YearsFromMarch(y: int)
    ensures DaysBeforeYear(y) == 365 * y + (y - 1) / 4 - (y - 1) / 100 + (y - 1) / 400 + 1
    ensures DaysBeforeYear(y) + (if IsLeap(y) then 1 else 0) == 365 * y + y / 4 - y / 100 + y / 400 + 1
  {
    FourYearStep(y);
    CenturyStep(y);
    FourCenturyStep(y);
    CenturiesOf(y);
    LeapCandidates(y);
    YearsAhead(y);
    YearsAhead(y - 1);
  }

  lemma YearsAhead(y: int)
    ensures (y + 4) / 4 == y / 4 + 1 && (y + 100) / 100 == y / 100 + 1 && (y + 400) / 400 == y / 400 + 1
  {
  }

  /** Days before a month, counted from the first of March where it is later. */
  lemma MonthsBefore(year: int, month: nat)
    requires 1 <= month <= 12
    ensures DaysBeforeMonth(year, month) ==
            if month <= 2 then 31 * (month - 1)
            else 59 + (if IsLeap(year) then 1 else 0) + (153 * (month - 3) + 2) / 5
  {
    assert DaysBeforeMonth(year, 3) == 31 + DaysInMonth(year, 2);
    assert DaysBeforeMonth(year, 5) == DaysBeforeMonth(year, 3) + 61;
    assert DaysBeforeMonth(year, 7) == DaysBeforeMonth(year, 5) + 61;
    assert DaysBeforeMonth(year, 9) == DaysBeforeMonth(year, 7) + 62;
    assert DaysBeforeMonth(year, 11) == DaysBeforeMonth(year, 9) + 61;
  }

  // Instants and fields

  function DateOf(i: Instant): (date: Date)
    ensures date.Valid()
  {
    DateOfDay(i.sec / 86400)
  }

  function ClockOf(i: Instant): (clock: Clock)
    requires i.Valid()
    ensures clock.Valid()
  {
    var s := i.sec % 86400;
    Clock(s / 3600, s / 60 % 60, s % 60, i.nano)
  }

  function InstantOf(date: Date, clock: Clock): (i: Instant)
    requires date.Valid()
  {
    Instant(86400 * DayNumber(date) + 3600 * clock.hour + 60 * clock.minute + clock.second, clock.nano)
  }

  /** Taking an instant apart and putting it together is the identity. */
  lemma FieldsOfInstant(i: Instant)
    requires i.Valid()
    ensures InstantOf(DateOf(i), ClockOf(i)) == i
  {
    var s := i.sec % 86400;
    assert s / 60 == 60 * (s / 3600) + s / 60 % 60;
    assert s == 60 * (s / 60) + s % 60;
  }

  /** And so is putting valid fields together and taking them apart. */
  lemma InstantOfFields(date: Date, clock: Clock)
    requires date.Valid() && clock.Valid()
    ensures InstantOf(date, clock).Valid()
    ensures DateOf(InstantOf(date, clock)) == date && ClockOf(InstantOf(date, clock)) == clock
  {
    SplitSeconds(DayNumber(date), clock);
    DatesAreDays(DateOf(InstantOf(date, clock)), date);
  }

  lemma SplitSeconds(day: int, clock: Clock)
    requires clock.Valid()
    ensures var sec := 86400 * day + 3600 * clock.hour + 60 * clock.minute + clock.second;
            && sec / 86400 == day
            && sec % 86400 / 3600 == clock.hour
            && sec % 86400 / 60 % 60 == clock.minute
            && sec % 86400 % 60 == clock.second
  {
    var s := 3600 * clock.hour + 60 * clock.minute + clock.second;
    assert s / 60 == 60 * clock.hour + clock.minute;
  }
}
