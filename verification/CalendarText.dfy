/** How an instant is spelled (isoMillisecondsV1 in internal/application/agent_workflow_repair_audit.go):
    digit by digit, in the order and with the marks of ISO 8601. */
module CalendarText {
  import opened Text
  import opened IsoTime

  const DIGITS := "0123456789"

  function One(n: int): string
    requires 0 <= n < 10
  {
    [DIGITS[n]]
  }

  function Two(n: int): string
    requires 0 <= n < 100
  {
    [DIGITS[n / 10], DIGITS[n % 10]]
  }

  function Three(n: int): string
    requires 0 <= n < 1000
  {
    [DIGITS[n / 100], DIGITS[n / 10 % 10], DIGITS[n % 10]]
  }

  function Four(n: int): string
    requires 0 <= n < 10000
  {
    [DIGITS[n / 1000], DIGITS[n / 100 % 10], DIGITS[n / 10 % 10], DIGITS[n % 10]]
  }

  lemma DigitIs(d: nat)
    requires d < 10
    ensures Digit(d) == DIGITS[d]
  {
    assert d == 0 || d == 1 || d == 2 || d == 3 || d == 4 || d == 5 || d == 6 || d == 7 || d == 8 || d == 9;
  }

  lemma PaddedIsOne(n: nat)
    requires n < 10
    ensures Padded(n, 1) == One(n)
  {
    DigitIs(n);
  }

  lemma PaddedIsTwo(n: nat)
    requires n < 100
    ensures Padded(n, 2) == Two(n)
  {
    PaddedIsOne(n / 10);
    DigitIs(n % 10);
  }

  lemma PaddedIsThree(n: nat)
    requires n < 1000
    ensures Padded(n, 3) == Three(n)
  {
    PaddedIsTwo(n / 10);
    DigitIs(n % 10);
    assert n / 10 / 10 == n / 100;
  }

  lemma PaddedIsFour(n: nat)
    requires n < 10000
    ensures Padded(n, 4) == Four(n)
  {
    PaddedIsThree(n / 10);
    DigitIs(n % 10);
    assert n / 10 / 100 == n / 1000 && n / 10 / 10 == n / 100;
  }

  lemma PutIs(n: nat, digits: string, width: nat, mark: char, rest: string)
    requires Padded(n, width) == digits
    ensures Put(n, width, mark, rest) == digits + [mark] + rest
  {}

  /** The clock reads hh:mm:ss.mmmZ. */
  lemma ClockIsSpelled(c: Civil)
    requires ValidCivil(c)
    ensures ClockText(c) ==
      Two(c.hour) + [':'] + (Two(c.minute) + [':'] + (Two(c.second) + ['.'] + (Three(c.milli) + ['Z'])))
  {
    PaddedIsTwo(c.hour);
    PaddedIsTwo(c.minute);
    PaddedIsTwo(c.second);
    PaddedIsThree(c.milli);
    var s3 := Put(c.milli, 3, 'Z', "");
    var s2 := Put(c.second, 2, '.', s3);
    PutIs(c.milli, Three(c.milli), 3, 'Z', "");
    assert Three(c.milli) + ['Z'] + "" == Three(c.milli) + ['Z'];
    PutIs(c.second, Two(c.second), 2, '.', s3);
    PutIs(c.minute, Two(c.minute), 2, ':', s2);
    PutIs(c.hour, Two(c.hour), 2, ':', Put(c.minute, 2, ':', s2));
  }

  /** The date reads yyyy-mm-ddT before it. */
  function DateAndClock(c: Civil): string
    requires ValidCivil(c)
  {
    YearText(c.year) + (['-'] + (Two(c.month) + ['-'] + (Two(c.day) + ['T']
    + (Two(c.hour) + [':'] + (Two(c.minute) + [':'] + (Two(c.second) + ['.'] + (Three(c.milli) + ['Z'])))))))
  }

  lemma PrintIsSpelled(c: Civil)
    requires ValidCivil(c)
    ensures PrintCivil(c) == DateAndClock(c)
  {
    PaddedIsTwo(c.month);
    PaddedIsTwo(c.day);
    ClockIsSpelled(c);
    PutIs(c.day, Two(c.day), 2, 'T', ClockText(c));
    PutIs(c.month, Two(c.month), 2, '-', Put(c.day, 2, 'T', ClockText(c)));
  }

  /** The year has four digits, as many more as a later one needs, and a sign before the year 0. */
  lemma YearIsSpelled(year: int)
    ensures 0 <= year < 10000 ==> YearText(year) == Four(year)
    ensures year < 0 ==> YearText(year) == ['-'] + YearText(-year)
    ensures year >= 10000 ==> YearText(year) == YearText(year / 10) + [DIGITS[year % 10]]
  {
    if 0 <= year < 10000 { PaddedIsFour(year); }
    if year >= 10000 { LongYear(year); }
  }

  /** An instant is spelled as the date and the time of day it falls on, and a year of four digits as those digits. */
  lemma IsoIsSpelled(t: int)
    ensures IsoMilliseconds(t) == DateAndClock(CivilOf(t))
    ensures 0 <= CivilOf(t).year < 10000 ==> YearText(CivilOf(t).year) == Four(CivilOf(t).year)
  {
    PrintIsSpelled(CivilOf(t));
    YearIsSpelled(CivilOf(t).year);
  }

  lemma {:induction false} PowerIsPositive(k: nat)
    ensures Pow10(k) >= 1 && (k >= 1 ==> Pow10(k) >= 10) && (k >= 2 ==> Pow10(k) >= 100)
  {
    if k > 0 { PowerIsPositive(k - 1); }
  }

  lemma {:induction false} LongPadded(n: nat, width: nat)
    requires n >= 10 && n >= Pow10(width)
    ensures Padded(n, width) == Padded(n, width + 1)
    decreases width
  {
    if width > 0 {
      assert n / 10 >= Pow10(width - 1);
      PowerIsPositive(width);
      if n / 10 >= 10 { LongPadded(n / 10, width - 1); }
    }
  }

  lemma LongYear(year: nat)
    requires year >= 10000
    ensures Padded(year, 4) == Padded(year / 10, 4) + [DIGITS[year % 10]]
  {
    DigitIs(year % 10);
    assert Pow10(3) == 1000 by { assert Pow10(1) == 10; }
    LongPadded(year / 10, 3);
  }
}
