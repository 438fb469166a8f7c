/** Instants and their canonical text, 2006-01-02T15:04:05.000Z (isoMillisecondsV1 in
    internal/application/agent_workflow_repair_audit.go), with the strict parser that reads it back.
    An instant is a number of nanoseconds since 0001-01-01T00:00:00Z, Go's zero time. */
module IsoTime {
  import opened Text
  import opened Wrappers

  const NANOS_PER_MILLI := 1000000
  const MILLIS_PER_DAY := 86400000

  /** Go's Truncate(time.Millisecond): down to a whole millisecond. */
  function Truncate(t: int): int { t - t % NANOS_PER_MILLI }

  datatype Civil = Civil(year: int, month: int, day: int, hour: int, minute: int, second: int, milli: int)

  // ---- the Gregorian calendar ------------------------------------------------------------

  /** Days from 0001-01-01 to the first day of the year. */
  function DaysBefore(year: int): int {
    var n := year - 1;
    365 * n + n / 4 - n / 100 + n / 400
  }

  predicate Leap(year: int) { year % 4 == 0 && (year % 100 != 0 || year % 400 == 0) }

  lemma YearLength(year: int)
    ensures DaysBefore(year + 1) - DaysBefore(year) == if Leap(year) then 366 else 365
  {
    var n := year - 1;
    StepOf(n, 4);
    StepOf(n, 100);
    StepOf(n, 400);
    assert year % 100 == 0 ==> year % 4 == 0;
    assert year % 400 == 0 ==> year % 100 == 0;
  }

  lemma StepOf(n: int, d: int)
    requires d in {4, 100, 400}
    ensures (n + 1) / d == n / d + if (n + 1) % d == 0 then 1 else 0
  {}

  function YearFrom(day: int, year: int): (y: int)
    requires DaysBefore(year) <= day
    ensures DaysBefore(y) <= day < DaysBefore(y + 1)
    decreases day - DaysBefore(year)
  {
    YearLength(year);
    if day < DaysBefore(year + 1) then year else YearFrom(day, year + 1)
  }

  lemma EarlyYear(day: int)
    requires day < 0
    ensures DaysBefore(day) <= day
  {
    var n := day - 1;
    assert n / 4 <= 0 && n / 400 <= 0 && n / 100 >= n;
  }

  /** The year a day falls in. */
  function YearOf(day: int): (y: int)
    ensures DaysBefore(y) <= day < DaysBefore(y + 1)
  {
    if day >= 0 then YearFrom(day, 1) else EarlyYear(day); YearFrom(day, day)
  }

  /** Days from the first of January to the first of the month; month 13 closes the year. */
  function MonthStart(leap: bool, month: int): int {
    var extra := if leap then 1 else 0;
    if month <= 1 then 0
    else if month == 2 then 31
    else if month == 3 then 59 + extra
    else if month == 4 then 90 + extra
    else if month == 5 then 120 + extra
    else if month == 6 then 151 + extra
    else if month == 7 then 181 + extra
    else if month == 8 then 212 + extra
    else if month == 9 then 243 + extra
    else if month == 10 then 273 + extra
    else if month == 11 then 304 + extra
    else if month == 12 then 334 + extra
    else 365 + extra
  }

  function MonthFrom(leap: bool, dayOfYear: int, month: int): (m: int)
    requires 1 <= month <= 12 && MonthStart(leap, month) <= dayOfYear < MonthStart(leap, 13)
    ensures 1 <= m <= 12 && MonthStart(leap, m) <= dayOfYear < MonthStart(leap, m + 1)
    decreases 12 - month
  {
    if dayOfYear < MonthStart(leap, month + 1) then month else MonthFrom(leap, dayOfYear, month + 1)
  }

  predicate ValidCivil(c: Civil) {
    && 1 <= c.month <= 12
    && 1 <= c.day <= MonthStart(Leap(c.year), c.month + 1) - MonthStart(Leap(c.year), c.month)
    && 0 <= c.hour < 24 && 0 <= c.minute < 60 && 0 <= c.second < 60 && 0 <= c.milli < 1000
  }

  function CivilOf(t: int): (c: Civil)
    ensures ValidCivil(c)
  {
    var millis := t / NANOS_PER_MILLI;
    var day, rest := millis / MILLIS_PER_DAY, millis % MILLIS_PER_DAY;
    var year := YearOf(day);
    YearLength(year);
    var dayOfYear := day - DaysBefore(year);
    var month := MonthFrom(Leap(year), dayOfYear, 1);
    Civil(year, month, dayOfYear - MonthStart(Leap(year), month) + 1,
          rest / 3600000, rest / 60000 % 60, rest / 1000 % 60, rest % 1000)
  }

  function InstantOf(c: Civil): int {
    var day := DaysBefore(c.year) + MonthStart(Leap(c.year), c.month) + c.day - 1;
    (day * MILLIS_PER_DAY + c.hour * 3600000 + c.minute * 60000 + c.second * 1000 + c.milli) * NANOS_PER_MILLI
  }

  lemma ClockRoundTrip(rest: int)
    requires 0 <= rest < MILLIS_PER_DAY
    ensures rest / 3600000 * 3600000 + rest / 60000 % 60 * 60000 + rest / 1000 % 60 * 1000 + rest % 1000 == rest
  {
    var seconds := rest / 1000;
    var minutes := rest / 60000;
    assert minutes == seconds / 60 && rest / 3600000 == minutes / 60;
  }

  /** Splitting an instant into calendar fields and back loses exactly the part below a millisecond. */
  lemma InstantOfCivil(t: int)
    ensures InstantOf(CivilOf(t)) == Truncate(t)
  {
    var millis := t / NANOS_PER_MILLI;
    ClockRoundTrip(millis % MILLIS_PER_DAY);
    assert millis * NANOS_PER_MILLI == Truncate(t);
    assert millis / MILLIS_PER_DAY * MILLIS_PER_DAY + millis % MILLIS_PER_DAY == millis;
  }

  // ---- text ------------------------------------------------------------------------------

  function YearText(year: int): string { if year >= 0 then Padded(year, 4) else "-" + Padded(-year, 4) }

  /** A zero-padded number and the character that ends it, before the rest. */
  function Put(n: nat, width: nat, mark: char, rest: string): string { Padded(n, width) + ([mark] + rest) }

  function ClockText(c: Civil): string
    requires ValidCivil(c)
  {
    Put(c.hour, 2, ':', Put(c.minute, 2, ':', Put(c.second, 2, '.', Put(c.milli, 3, 'Z', ""))))
  }

  function PrintCivil(c: Civil): string
    requires ValidCivil(c)
  {
    YearText(c.year) + (['-'] + Put(c.month, 2, '-', Put(c.day, 2, 'T', ClockText(c))))
  }

  function IsoMilliseconds(t: int): string { PrintCivil(CivilOf(t)) }

  predicate Digits(s: string) { forall c | c in s :: IsDigit(c) }

  /** Reads width digits and the character after them. */
  function Field(s: string, width: nat, mark: char): Option<(nat, string)> {
    if |s| > width && Digits(s[..width]) && s[width] == mark then Some((Number(s[..width]), s[width + 1..])) else None
  }

  function ParseClock(s: string): Option<(nat, nat, nat, nat)> {
    match Field(s, 2, ':')
    case None => None
    case Some((hour, s1)) =>
      match Field(s1, 2, ':')
      case None => None
      case Some((minute, s2)) =>
        match Field(s2, 2, '.')
        case None => None
        case Some((second, s3)) =>
          match Field(s3, 3, 'Z')
          case None => None
          case Some((milli, s4)) => if s4 == "" then Some((hour, minute, second, milli)) else None
  }

  function ParseCivil(s: string): Option<Civil> {
    match Field(s, 4, '-')
    case None => None
    case Some((year, s1)) =>
      match Field(s1, 2, '-')
      case None => None
      case Some((month, s2)) =>
        match Field(s2, 2, 'T')
        case None => None
        case Some((day, s3)) =>
          match ParseClock(s3)
          case None => None
          case Some((hour, minute, second, milli)) =>
            var c := Civil(year, month, day, hour, minute, second, milli);
            if ValidCivil(c) then Some(c) else None
  }

  function Parse(s: string): Option<int> {
    match ParseCivil(s) case None => None case Some(c) => Some(InstantOf(c))
  }

  lemma FieldOfPut(n: nat, width: nat, mark: char, rest: string)
    requires width >= 1 && n < Pow10(width)
    ensures Field(Put(n, width, mark, rest), width, mark) == Some((n, rest))
  {
    NumberPadded(n, width);
    var s := Put(n, width, mark, rest);
    var digits, tail := Padded(n, width), [mark] + rest;
    assert s == digits + tail && |digits| == width;
    assert s[..width] == digits && s[width..] == tail;
    assert s[width + 1..] == tail[1..] == rest;
  }

  lemma Powers()
    ensures Pow10(2) == 100 && Pow10(3) == 1000 && Pow10(4) == 10000
  {
    assert Pow10(1) == 10;
  }

  predicate FourDigits(year: int) { 0 <= year <= 9999 }

  lemma ClockTextRoundTrip(c: Civil)
    requires ValidCivil(c)
    ensures ParseClock(ClockText(c)) == Some((c.hour, c.minute, c.second, c.milli))
  {
    Powers();
    FieldOfPut(c.milli, 3, 'Z', "");
    var s3 := Put(c.milli, 3, 'Z', "");
    FieldOfPut(c.second, 2, '.', s3);
    var s2 := Put(c.second, 2, '.', s3);
    FieldOfPut(c.minute, 2, ':', s2);
    FieldOfPut(c.hour, 2, ':', Put(c.minute, 2, ':', s2));
  }

  lemma DayTextRoundTrip(c: Civil)
    requires ValidCivil(c)
    ensures var s2 := Put(c.day, 2, 'T', ClockText(c));
      && Field(s2, 2, 'T') == Some((c.day, ClockText(c)))
      && Field(Put(c.month, 2, '-', s2), 2, '-') == Some((c.month, s2))
  {
    Powers();
    FieldOfPut(c.day, 2, 'T', ClockText(c));
    FieldOfPut(c.month, 2, '-', Put(c.day, 2, 'T', ClockText(c)));
  }

  /** The text of a date with a four-digit year reads back as the date. */
  lemma CivilRoundTrip(c: Civil)
    requires ValidCivil(c) && FourDigits(c.year)
    ensures ParseCivil(PrintCivil(c)) == Some(c)
  {
    Powers();
    var s1 := Put(c.month, 2, '-', Put(c.day, 2, 'T', ClockText(c)));
    assert PrintCivil(c) == Put(c.year, 4, '-', s1);
    FieldOfPut(c.year, 4, '-', s1);
    DayTextRoundTrip(c);
    ClockTextRoundTrip(c);
  }

  /** The text of any other year is longer or starts with a sign, and does not parse. */
  lemma OtherYearsDoNotParse(c: Civil)
    requires ValidCivil(c) && !FourDigits(c.year)
    ensures ParseCivil(PrintCivil(c)) == None
  {
    Powers();
    var s := PrintCivil(c);
    if c.year >= 0 {
      NumberPadded(c.year, 4);
      assert s[4] == Padded(c.year, 4)[4] && IsDigit(Padded(c.year, 4)[4]);
    } else {
      assert s[0] == '-';
      assert s[0] in s[..4] || |s| <= 4;
    }
  }

  /** An instant's text parses exactly when its year has four digits, and then gives the instant back, cut to the
      millisecond. */
  lemma ParseIsoMilliseconds(t: int)
    ensures Parse(IsoMilliseconds(t)) == if FourDigits(CivilOf(t).year) then Some(Truncate(t)) else None
  {
    if FourDigits(CivilOf(t).year) {
      CivilRoundTrip(CivilOf(t));
      InstantOfCivil(t);
    } else {
      OtherYearsDoNotParse(CivilOf(t));
    }
  }

  // ---- the text determines the instant ---------------------------------------------------

  lemma PutLength(n: nat, width: nat, mark: char, rest: string)
    requires width >= 1 && n < Pow10(width)
    ensures |Put(n, width, mark, rest)| == width + 1 + |rest|
  {
    NumberPadded(n, width);
  }

  /** What follows the year, always twenty characters. */
  function AfterYear(c: Civil): string
    requires ValidCivil(c)
  {
    ['-'] + Put(c.month, 2, '-', Put(c.day, 2, 'T', ClockText(c)))
  }

  lemma AfterYearLength(c: Civil)
    requires ValidCivil(c)
    ensures |AfterYear(c)| == 20
  {
    Powers();
    var s3 := Put(c.milli, 3, 'Z', "");
    var s2 := Put(c.second, 2, '.', s3);
    var s1 := Put(c.minute, 2, ':', s2);
    PutLength(c.milli, 3, 'Z', "");
    PutLength(c.second, 2, '.', s3);
    PutLength(c.minute, 2, ':', s2);
    PutLength(c.hour, 2, ':', s1);
    PutLength(c.day, 2, 'T', ClockText(c));
    PutLength(c.month, 2, '-', Put(c.day, 2, 'T', ClockText(c)));
  }

  lemma AfterYearInjective(c: Civil, d: Civil)
    requires ValidCivil(c) && ValidCivil(d) && AfterYear(c) == AfterYear(d)
    ensures c == d.(year := c.year)
  {
    Powers();
    var x, y := Put(c.day, 2, 'T', ClockText(c)), Put(d.day, 2, 'T', ClockText(d));
    assert AfterYear(c)[1..] == Put(c.month, 2, '-', x) && AfterYear(d)[1..] == Put(d.month, 2, '-', y);
    FieldOfPut(c.month, 2, '-', x);
    FieldOfPut(d.month, 2, '-', y);
    FieldOfPut(c.day, 2, 'T', ClockText(c));
    FieldOfPut(d.day, 2, 'T', ClockText(d));
    ClockTextRoundTrip(c);
    ClockTextRoundTrip(d);
  }

  lemma YearTextInjective(x: int, y: int)
    requires YearText(x) == YearText(y)
    ensures x == y
  {
    var m, n := if x >= 0 then x else -x, if y >= 0 then y else -y;
    NumberPadded(m, 4);
    NumberPadded(n, 4);
    assert Padded(m, 4)[0] in Padded(m, 4) && Padded(n, 4)[0] in Padded(n, 4);
    assert (x < 0) == (YearText(x)[0] == '-') == (y < 0);
    if x < 0 {
      assert YearText(x)[1..] == Padded(m, 4) && YearText(y)[1..] == Padded(n, 4);
    }
  }

  /** Two instants print alike exactly when they agree to the millisecond, whatever their years. */
  lemma IsoInjective(a: int, b: int)
    ensures IsoMilliseconds(a) == IsoMilliseconds(b) <==> Truncate(a) == Truncate(b)
  {
    var c, d := CivilOf(a), CivilOf(b);
    InstantOfCivil(a);
    InstantOfCivil(b);
    TruncateIdempotent(a);
    TruncateIdempotent(b);
    if PrintCivil(c) == PrintCivil(d) {
      AfterYearLength(c);
      AfterYearLength(d);
      var s := PrintCivil(c);
      assert s == YearText(c.year) + AfterYear(c) == YearText(d.year) + AfterYear(d);
      assert s[..|s| - 20] == YearText(c.year) == YearText(d.year);
      assert s[|s| - 20..] == AfterYear(c) == AfterYear(d);
      AfterYearInjective(c, d);
      YearTextInjective(c.year, d.year);
    }
  }

  lemma PutHasNo(n: nat, width: nat, mark: char, rest: string, c: char)
    requires width >= 1 && !IsDigit(c) && c != mark && c !in rest
    ensures c !in Put(n, width, mark, rest)
  {
    NumberPadded(n, width);
  }

  lemma TextIsOneLine(t: int)
    ensures '\n' !in IsoMilliseconds(t)
  {
    var d := CivilOf(t);
    var s3 := Put(d.milli, 3, 'Z', "");
    var s2 := Put(d.second, 2, '.', s3);
    var s1 := Put(d.minute, 2, ':', s2);
    PutHasNo(d.milli, 3, 'Z', "", '\n');
    PutHasNo(d.second, 2, '.', s3, '\n');
    PutHasNo(d.minute, 2, ':', s2, '\n');
    PutHasNo(d.hour, 2, ':', s1, '\n');
    PutHasNo(d.day, 2, 'T', ClockText(d), '\n');
    PutHasNo(d.month, 2, '-', Put(d.day, 2, 'T', ClockText(d)), '\n');
    NumberPadded(if d.year >= 0 then d.year else -d.year, 4);
    assert IsoMilliseconds(t) == YearText(d.year) + AfterYear(d);
  }

  lemma {:induction false} YearsAreOrdered(x: int, y: int)
    requires x < y
    ensures DaysBefore(x) < DaysBefore(y)
    decreases y - x
  {
    YearLength(y - 1);
    if x < y - 1 { YearsAreOrdered(x, y - 1); }
  }

  /** The first instant of a year is in that year. */
  lemma NewYear(year: int)
    ensures CivilOf(DaysBefore(year) * MILLIS_PER_DAY * NANOS_PER_MILLI).year == year
  {
    var day := DaysBefore(year);
    assert day * MILLIS_PER_DAY * NANOS_PER_MILLI / NANOS_PER_MILLI == day * MILLIS_PER_DAY;
    assert day * MILLIS_PER_DAY / MILLIS_PER_DAY == day;
    var y := YearOf(day);
    YearLength(year);
    if y < year && y + 1 < year { YearsAreOrdered(y + 1, year); }
    if year < y { YearsAreOrdered(year, y); }
  }

  lemma TruncateIdempotent(t: int)
    ensures Truncate(Truncate(t)) == Truncate(t)
    ensures CivilOf(Truncate(t)) == CivilOf(t)
  {
    var millis := t / NANOS_PER_MILLI;
    assert Truncate(t) == millis * NANOS_PER_MILLI;
    assert Truncate(t) / NANOS_PER_MILLI == millis;
  }
}
