/** That the calendar of IsoTime is the one everybody uses: it starts on the first of January of the year 1, a day later
    is the next date, and a millisecond later is the next reading of the clock. */
module CalendarSteps {
  import opened IsoTime

  const NANOS_PER_DAY := 86400000000000

  function MonthLength(year: int, month: int): int {
    if month == 4 || month == 6 || month == 9 || month == 11 then 30
    else if month != 2 then 31
    else if (year % 4 == 0 && year % 100 != 0) || year % 400 == 0 then 29
    else 28
  }

  /** The date after this one, at the same time of day. */
  function NextDay(c: Civil): Civil {
    if c.day < MonthLength(c.year, c.month) then c.(day := c.day + 1)
    else if c.month < 12 then c.(month := c.month + 1, day := 1)
    else c.(year := c.year + 1, month := 1, day := 1)
  }

  /** The reading of the clock one millisecond later. */
  function NextMilli(c: Civil): Civil {
    if c.milli < 999 then c.(milli := c.milli + 1)
    else if c.second < 59 then c.(milli := 0, second := c.second + 1)
    else if c.minute < 59 then c.(milli := 0, second := 0, minute := c.minute + 1)
    else if c.hour < 23 then c.(milli := 0, second := 0, minute := 0, hour := c.hour + 1)
    else NextDay(c.(milli := 0, second := 0, minute := 0, hour := 0))
  }

  lemma LeapRule(year: int)
    ensures Leap(year) <==> (year % 4 == 0 && year % 100 != 0) || year % 400 == 0
  {
    if year % 400 == 0 {
      var q := year / 400;
      assert year == 4 * (100 * q);
    }
  }

  lemma MonthSpan(leap: bool, month: int)
    requires 1 <= month <= 12
    ensures MonthStart(leap, month + 1) - MonthStart(leap, month) ==
      if month == 4 || month == 6 || month == 9 || month == 11 then 30
      else if month != 2 then 31 else if leap then 29 else 28
    ensures MonthStart(leap, 1) == 0 && MonthStart(leap, 13) == if leap then 366 else 365
  {}

  lemma MonthLengths(year: int, month: int)
    requires 1 <= month <= 12
    ensures MonthStart(Leap(year), month + 1) - MonthStart(Leap(year), month) == MonthLength(year, month)
    ensures MonthStart(Leap(year), 1) == 0 && MonthStart(Leap(year), 13) == if Leap(year) then 366 else 365
  {
    LeapRule(year);
    MonthSpan(Leap(year), month);
  }

  /** The dates and times there are. */
  lemma ValidCivilExactly(c: Civil)
    ensures ValidCivil(c) <==>
      && 1 <= c.month <= 12 && 1 <= c.day <= MonthLength(c.year, c.month)
      && 0 <= c.hour < 24 && 0 <= c.minute < 60 && 0 <= c.second < 60 && 0 <= c.milli < 1000
  {
    if 1 <= c.month <= 12 { MonthLengths(c.year, c.month); }
  }

  lemma {:induction false} MonthsAreOrdered(leap: bool, a: int, b: int)
    requires 1 <= a <= b <= 13
    ensures MonthStart(leap, a) <= MonthStart(leap, b)
    decreases b - a
  {
    if a < b { MonthsAreOrdered(leap, a, b - 1); }
  }

  lemma {:induction false} MonthIsFound(leap: bool, dayOfYear: int, month: int, from: int)
    requires 1 <= from <= month <= 12
    requires MonthStart(leap, month) <= dayOfYear < MonthStart(leap, month + 1)
    ensures MonthStart(leap, from) <= dayOfYear < MonthStart(leap, 13)
    ensures MonthFrom(leap, dayOfYear, from) == month
    decreases month - from
  {
    MonthsAreOrdered(leap, from, month);
    MonthsAreOrdered(leap, month + 1, 13);
    if from < month {
      MonthsAreOrdered(leap, from + 1, month);
      MonthIsFound(leap, dayOfYear, month, from + 1);
    }
  }

  lemma YearIsFound(day: int, year: int)
    requires DaysBefore(year) <= day < DaysBefore(year + 1)
    ensures YearOf(day) == year
  {
    var y := YearOf(day);
    if y < year && y + 1 < year { YearsAreOrdered(y + 1, year); }
    if year < y && year + 1 < y { YearsAreOrdered(year + 1, y); }
  }

  function DayNumber(c: Civil): int { DaysBefore(c.year) + MonthStart(Leap(c.year), c.month) + c.day - 1 }

  function ClockMillis(c: Civil): int { c.hour * 3600000 + c.minute * 60000 + c.second * 1000 + c.milli }

  lemma DateIsFound(c: Civil)
    requires ValidCivil(c)
    ensures var day := DayNumber(c);
      && YearOf(day) == c.year
      && MonthStart(Leap(c.year), 1) <= day - DaysBefore(c.year) < MonthStart(Leap(c.year), 13)
      && MonthFrom(Leap(c.year), day - DaysBefore(c.year), 1) == c.month
  {
    YearLength(c.year);
    MonthLengths(c.year, c.month);
    MonthsAreOrdered(Leap(c.year), 1, c.month);
    MonthsAreOrdered(Leap(c.year), c.month + 1, 13);
    YearIsFound(DayNumber(c), c.year);
    MonthIsFound(Leap(c.year), DayNumber(c) - DaysBefore(c.year), c.month, 1);
  }

  lemma ClockIsFound(c: Civil)
    requires ValidCivil(c)
    ensures var rest := ClockMillis(c);
      && 0 <= rest < MILLIS_PER_DAY
      && rest / 3600000 == c.hour && rest / 60000 % 60 == c.minute
      && rest / 1000 % 60 == c.second && rest % 1000 == c.milli
  {
    var seconds := c.hour * 3600 + c.minute * 60 + c.second;
    var minutes := c.hour * 60 + c.minute;
    assert ClockMillis(c) == seconds * 1000 + c.milli;
    assert ClockMillis(c) / 1000 == seconds;
    assert ClockMillis(c) / 60000 == minutes;
  }

  /** Reading the instant of a date and time gives the date and time back. */
  lemma CivilOfInstant(c: Civil)
    requires ValidCivil(c)
    ensures CivilOf(InstantOf(c)) == c
  {
    DateIsFound(c);
    ClockIsFound(c);
    var millis := DayNumber(c) * MILLIS_PER_DAY + ClockMillis(c);
    assert InstantOf(c) == millis * NANOS_PER_MILLI;
    assert InstantOf(c) / NANOS_PER_MILLI == millis;
    assert millis / MILLIS_PER_DAY == DayNumber(c) && millis % MILLIS_PER_DAY == ClockMillis(c);
  }

  /** Go's zero time is the first instant of the year 1. */
  lemma FirstInstant()
    ensures CivilOf(0) == Civil(1, 1, 1, 0, 0, 0, 0)
  {
    CivilOfInstant(Civil(1, 1, 1, 0, 0, 0, 0));
  }

  lemma InstantIs(c: Civil)
    ensures InstantOf(c) == (DayNumber(c) * MILLIS_PER_DAY + ClockMillis(c)) * NANOS_PER_MILLI
  {}

  lemma NextDayNumber(c: Civil)
    requires ValidCivil(c)
    ensures ValidCivil(NextDay(c)) && DayNumber(NextDay(c)) == DayNumber(c) + 1
    ensures ClockMillis(NextDay(c)) == ClockMillis(c)
  {
    MonthLengths(c.year, c.month);
    MonthLengths(NextDay(c).year, NextDay(c).month);
    YearLength(c.year);
  }

  lemma NextDayIsADayLater(c: Civil)
    requires ValidCivil(c)
    ensures ValidCivil(NextDay(c)) && InstantOf(NextDay(c)) == InstantOf(c) + NANOS_PER_DAY
  {
    NextDayNumber(c);
    InstantIs(c);
    InstantIs(NextDay(c));
  }

  lemma SameInstant(x: int, y: int)
    requires x == y
    ensures CivilOf(x) == CivilOf(y)
  {}

  lemma ReadsAs(x: int, y: int, reading: Civil)
    requires Truncate(x) == y && CivilOf(y) == reading
    ensures CivilOf(x) == reading
  {
    TruncateIdempotent(x);
    SameInstant(Truncate(x), y);
  }

  /** If a reading lies a whole number of milliseconds after another, it is what the later instant reads. */
  lemma ReadsLater(t: int, shift: int, later: Civil)
    requires Truncate(t + shift) == Truncate(t) + shift
    requires ValidCivil(later) && InstantOf(later) == InstantOf(CivilOf(t)) + shift
    ensures CivilOf(t + shift) == later
  {
    InstantOfCivil(t);
    CivilOfInstant(later);
    ReadsAs(t + shift, InstantOf(later), later);
  }

  /** A day later it is the next date, with months of 31 and 30 days and February of 28 or 29. */
  lemma ADayLater(t: int)
    ensures CivilOf(t + 86400000000000) == NextDay(CivilOf(t))
  {
    NextDayIsADayLater(CivilOf(t));
    assert (t + NANOS_PER_DAY) % NANOS_PER_MILLI == t % NANOS_PER_MILLI;
    ReadsLater(t, NANOS_PER_DAY, NextDay(CivilOf(t)));
  }

  lemma NextMilliIsAMilliLater(c: Civil)
    requires ValidCivil(c)
    ensures ValidCivil(NextMilli(c)) && InstantOf(NextMilli(c)) == InstantOf(c) + NANOS_PER_MILLI
  {
    var n := NextMilli(c);
    InstantIs(c);
    if c.milli == 999 && c.second == 59 && c.minute == 59 && c.hour == 23 {
      var midnight := c.(milli := 0, second := 0, minute := 0, hour := 0);
      NextDayIsADayLater(midnight);
      InstantIs(midnight);
      assert ClockMillis(c) == 86399999 && ClockMillis(midnight) == 0 && DayNumber(midnight) == DayNumber(c);
    } else {
      InstantIs(n);
      assert ClockMillis(n) == ClockMillis(c) + 1 && DayNumber(n) == DayNumber(c);
    }
  }

  /** A millisecond later the clock has moved by one millisecond, with all carries. */
  lemma AMilliLater(t: int)
    ensures CivilOf(t + 1000000) == NextMilli(CivilOf(t))
  {
    NextMilliIsAMilliLater(CivilOf(t));
    assert (t + NANOS_PER_MILLI) % NANOS_PER_MILLI == t % NANOS_PER_MILLI;
    ReadsLater(t, NANOS_PER_MILLI, NextMilli(CivilOf(t)));
  }

  /** What passes within a millisecond is not read. */
  lemma WithinAMilli(t: int, rest: nat)
    requires t % 1000000 == 0 && rest < 1000000
    ensures CivilOf(t + rest) == CivilOf(t)
  {
    WholeAndRest(t, rest);
    ReadsAs(t + rest, t, CivilOf(t));
  }

  lemma WholeAndRest(t: int, rest: nat)
    requires t % 1000000 == 0 && rest < 1000000
    ensures Truncate(t + rest) == t
  {}

  /** Cutting to the millisecond goes down, by less than a millisecond, to a whole one. */
  lemma TruncateGoesDown(t: int)
    ensures t - 1000000 < Truncate(t) <= t && Truncate(t) % 1000000 == 0
  {}
}
