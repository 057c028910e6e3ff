/**
 Calendar conversion: seconds since 1970 in 32 bits to a date and a time of day, and back.
 Years count from 1970 and are stored in 8 bits.
 */
module Calendar {
  import opened Basics
  import opened Bytes

  const SECS_PER_DAY: nat := 86400

  datatype TmElements = TmElements(second: Byte, minute: Byte, hour: Byte, wday: Byte,
                                   day: Byte, month: Byte, year: Byte)

  predicate Leap(year: nat) {
    (1970 + year) % 4 == 0 && ((1970 + year) % 100 != 0 || (1970 + year) % 400 == 0)
  }

  function YearDays(year: nat): nat { if Leap(year) then 366 else 365 }

  function MonthDays(year: nat, month: nat): (n: nat)
    requires 1 <= month <= 12
    ensures 28 <= n <= 31
  {
    if month == 2 then (if Leap(year) then 29 else 28)
    else if month == 4 || month == 6 || month == 9 || month == 11 then 30 else 31
  }

  /** Days from 1970 to the beginning of the year. */
  function DaysBefore(year: nat): nat
    decreases year
  {
    if year == 0 then 0 else DaysBefore(year - 1) + YearDays(year - 1)
  }

  /** Days from the beginning of the year to that of the month; month 0 counts as January. */
  function DaysBeforeMonth(year: nat, month: nat): nat
    requires month <= 13
    decreases month, year
  {
    if month <= 1 then 0 else DaysBeforeMonth(year, month - 1) + MonthDays(year, month - 1)
  }

  /** The day number of a date; day 0 of a month is the day before it. */
  function DayNumber(year: nat, month: nat, day: nat): int
    requires month <= 13
  {
    DaysBefore(year) + DaysBeforeMonth(year, month) + day - 1
  }

  function Seconds(tm: TmElements): int
    requires tm.month <= 13
  {
    DayNumber(tm.year, tm.month, tm.day) * SECS_PER_DAY + tm.hour * 3600 + tm.minute * 60 + tm.second
  }

  /** An existing date and time of day, with its day of the week. 1 January 1970 was a Thursday, Sunday is day 1. */
  predicate Valid(tm: TmElements) {
    && tm.second < 60 && tm.minute < 60 && tm.hour < 24
    && 1 <= tm.month <= 12 && 1 <= tm.day <= MonthDays(tm.year, tm.month)
    && tm.wday == (DayNumber(tm.year, tm.month, tm.day) + 4) % 7 + 1
  }

  // ---------- the calendar ----------

  /** Days before a month in closed form. */
  lemma {:induction false} MonthsClosed(year: nat, month: nat)
    requires 1 <= month <= 13
    ensures DaysBeforeMonth(year, month) ==
            (367 * month - 362) / 12 + if month <= 2 then 0 else if Leap(year) then -1 else -2
    decreases month
  {
    hide Leap;
    if month > 1 { MonthsClosed(year, month - 1); }
  }

  /** The sum of the days of all months is the length of the year. */
  lemma WholeYear(year: nat)
    ensures DaysBeforeMonth(year, 13) == YearDays(year)
  {
    MonthsClosed(year, 13);
  }

  lemma {:induction false} MonthsMonotone(year: nat, m: nat, n: nat)
    requires 1 <= m <= n <= 13
    ensures DaysBeforeMonth(year, m) <= DaysBeforeMonth(year, n)
    decreases n
  {
    if m < n { MonthsMonotone(year, m, n - 1); }
  }

  lemma {:induction false} YearsMonotone(y: nat, z: nat)
    requires y <= z
    ensures DaysBefore(y) + 365 * (z - y) <= DaysBefore(z)
    decreases z
  {
    if y < z { YearsMonotone(y, z - 1); }
  }

  /** Days before a year in closed form: a leap day every 4 years, except every 100, but every 400. */
  lemma {:induction false} Gregorian(year: nat)
    ensures DaysBefore(year) == 365 * year + (1969 + year) / 4 - (1969 + year) / 100 + (1969 + year) / 400 - 477
    decreases year
  {
    if year > 0 {
      hide Leap;
      Gregorian(year - 1);
      LeapCounted(1969 + year);
    }
  }

  lemma LeapCounted(n: nat)
    requires n >= 1970
    ensures n / 4 - n / 100 + n / 400 == (n - 1) / 4 - (n - 1) / 100 + (n - 1) / 400 + if Leap(n - 1970) then 1 else 0
  {
    NextQuotient(n, 4);
    NextQuotient(n, 100);
    NextQuotient(n, 400);
    Cycle(n);
  }

  lemma NextQuotient(n: nat, d: nat)
    requires n > 0 && d > 0
    ensures n / d == (n - 1) / d + if n % d == 0 then 1 else 0
  {
    var q, r := (n - 1) / d, (n - 1) % d;
    assert n == q * d + r + 1;
    if r + 1 == d {
      assert n == (q + 1) * d;
      Quotient(n, d, q + 1, 0);
    } else {
      Quotient(n, d, q, r + 1);
    }
  }

  lemma Cycle(n: nat)
    ensures n % 400 == 0 ==> n % 100 == 0 && n % 4 == 0
    ensures n % 100 == 0 ==> n % 4 == 0
  {
    var q, p := n / 400, n / 100;
    if n % 400 == 0 { Quotient(n, 100, 4 * q, 0); }
    if n % 100 == 0 { Quotient(n, 4, 25 * p, 0); }
    if n % 400 == 0 { Quotient(n, 4, 100 * q, 0); }
  }

  // ---------- the calendar in closed form ----------

  /** The day number of a date without a table of months: years begin in March, so that every
      leap day is the last day of its year, and five months have 153 days. */
  function CivilDay(year: nat, month: nat, day: nat): int
    requires 1 <= month <= 13
  {
    var y := if month <= 2 then 1969 + year else 1970 + year;
    var m := if month <= 2 then month + 9 else month - 3;
    365 * y + y / 4 - y / 100 + y / 400 + (153 * m + 2) / 5 + day - 719469
  }

  /** Every date, and day 0 of every month, has the day number of the closed form; month 13 is the next January. */
  lemma DayIsCivil(year: nat, month: nat, day: nat)
    requires 1 <= month <= 13
    ensures DayNumber(year, month, day) == CivilDay(year, month, day)
  {
    hide Leap, DaysBefore, DaysBeforeMonth;
    Gregorian(year);
    MonthsClosed(year, month);
    if month > 2 { LeapCounted(1970 + year); }
  }

  /** The seconds up to a date and time of day, in closed form; month 0 counts as January. */
  function CivilSeconds(tm: TmElements): int
    requires tm.month <= 13
  {
    CivilDay(tm.year, if tm.month == 0 then 1 else tm.month, tm.day) * SECS_PER_DAY +
    tm.hour * 3600 + tm.minute * 60 + tm.second
  }

  lemma SecondsAreCivil(tm: TmElements)
    requires tm.month <= 13
    ensures Seconds(tm) == CivilSeconds(tm)
  {
    hide DaysBefore, CivilDay;
    DayIsCivil(tm.year, if tm.month == 0 then 1 else tm.month, tm.day);
  }

  /** A date's day number is inside its year, and inside its month. */
  lemma DateBounds(year: nat, month: nat, day: nat)
    requires 1 <= month <= 12 && 1 <= day <= MonthDays(year, month)
    ensures DaysBefore(year) <= DayNumber(year, month, day) < DaysBefore(year + 1)
    ensures DaysBeforeMonth(year, month) <= DayNumber(year, month, day) - DaysBefore(year) < DaysBeforeMonth(year,
      month + 1)
  {
    MonthsMonotone(year, month + 1, 13);
    WholeYear(year);
  }

  /** Different dates have different day numbers. */
  lemma DayNumberInjective(y: nat, m: nat, d: nat, y': nat, m': nat, d': nat)
    requires 1 <= m <= 12 && 1 <= d <= MonthDays(y, m) && 1 <= m' <= 12 && 1 <= d' <= MonthDays(y', m')
    requires DayNumber(y, m, d) == DayNumber(y', m', d')
    ensures y == y' && m == m' && d == d'
  {
    hide DaysBefore, DaysBeforeMonth, Leap;
    DateBounds(y, m, d);
    DateBounds(y', m', d');
    if y < y' { YearsMonotone(y + 1, y'); }
    if y' < y { YearsMonotone(y' + 1, y); }
    if m < m' { MonthsMonotone(y, m + 1, m'); }
    if m' < m { MonthsMonotone(y, m' + 1, m); }
  }

  /** A time stamp belongs to one date and time of day only. */
  lemma SecondsInjective(a: TmElements, b: TmElements)
    requires Valid(a) && Valid(b) && Seconds(a) == Seconds(b)
    ensures a == b
  {
    hide DayNumber, MonthDays;
    var n, m := DayNumber(a.year, a.month, a.day), DayNumber(b.year, b.month, b.day);
    SameDay(n, a.hour * 3600 + a.minute * 60 + a.second, m, b.hour * 3600 + b.minute * 60 + b.second);
    SameTime(a.hour, a.minute, a.second, b.hour, b.minute, b.second);
    DayNumberInjective(a.year, a.month, a.day, b.year, b.month, b.day);
  }

  lemma SameDay(n: int, r: nat, m: int, s: nat)
    requires n * SECS_PER_DAY + r == m * SECS_PER_DAY + s && r < SECS_PER_DAY && s < SECS_PER_DAY
    ensures n == m && r == s
  {
  }

  lemma SameTime(hour: nat, minute: nat, second: nat, hour': nat, minute': nat, second': nat)
    requires minute < 60 && second < 60 && minute' < 60 && second' < 60
    requires hour * 3600 + minute * 60 + second == hour' * 3600 + minute' * 60 + second'
    ensures hour == hour' && minute == minute' && second == second'
  {
  }

  // ---------- breakTime ----------

  /** No 32-bit time stamp reaches the year 2107. */
  lemma LastYear(days: nat, year: nat)
    requires days * SECS_PER_DAY < WORD && DaysBefore(year) <= days
    ensures year <= 136 && days <= 49710
  {
    Gregorian(137);
    if year > 136 { YearsMonotone(137, year); }
  }

  const MONTH_DAYS: seq<nat> := [31, 28, 31, 30, 31, 30, 31, 31, 30, 31, 30, 31]

  /** One turn of the loop: the casts to 8 and 16 bits change nothing. */
  lemma NextYear(time: nat, year: nat)
    requires time * SECS_PER_DAY < WORD && DaysBefore(year) <= time
    ensures var days := DaysBefore(year) + YearDays(year);
      && year + 1 < 256 && days == DaysBefore(year + 1) && days == days % 65536 && DaysBefore(year) < days <= time + 366
  {
    LastYear(time, year);
  }

  /** The first loop of breakTime; days ends as the first day of the year. */
  method FindYear(time: nat) returns (year: nat, days: nat)
    requires time * SECS_PER_DAY < WORD
    ensures year < 256 && days == DaysBefore(year) <= time < DaysBefore(year) + YearDays(year)
  {
    year := 0;
    var length := YearDays(year);
    days := length;
    assert DaysBefore(0) == 0;
    hide DaysBefore, YearDays;
    NextYear(time, year);
    while days % 65536 <= time
      invariant length == YearDays(year) && days == DaysBefore(year) + length && DaysBefore(year) <= time
      decreases time + 366 - days
    {
      NextYear(time, year);
      assert DaysBefore(year + 1) <= time;
      NextYear(time, year + 1);
      assert (year + 1) % 256 == year + 1;
      year := (year + 1) % 256;
      length := YearDays(year);
      days := days + length;
    }
    NextYear(time, year);
    days := days - length;
  }

  lemma MonthLengths(year: nat, month: nat)
    requires month < 12
    ensures MonthDays(year, month + 1) == if month == 1 then (if Leap(year) then 29 else 28) else MONTH_DAYS[month]
  {
  }

  /** The second loop of breakTime. */
  method FindMonth(year: nat, day: nat) returns (month: nat, time: nat)
    requires day < YearDays(year)
    ensures month < 12 && day == DaysBeforeMonth(year, month + 1) + time && time < MonthDays(year, month + 1)
    ensures CivilDay(year, 1, 1) + day == CivilDay(year, month + 1, 1) + time < CivilDay(year, month + 2, 1)
  {
    hide CivilDay, DaysBefore;
    month, time := 0, day;
    while month < 12
      invariant 0 <= month < 12 && day == DaysBeforeMonth(year, month + 1) + time
    {
      MonthLengths(year, month);
      var monthLength := if month == 1 then (if Leap(year) then 29 else 28) else MONTH_DAYS[month];
      if time >= monthLength {
        time := time - monthLength;
      } else {
        break;
      }
      WholeYear(year);
      month := month + 1;
    }
    DayIsCivil(year, 1, 1);
    DayIsCivil(year, month + 1, 1);
    DayIsCivil(year, month + 2, 1);
  }

  /** The divisions at the beginning of breakTime. */
  method SplitTime(t: nat) returns (second: nat, minute: nat, hour: nat, time: nat)
    ensures second < 60 && minute < 60 && hour < 24
    ensures t == time * SECS_PER_DAY + hour * 3600 + minute * 60 + second
  {
    time := t;
    second := time % 60;
    time := time / 60;
    minute := time % 60;
    time := time / 60;
    hour := time % 24;
    time := time / 24;
  }

  /** breakTime: the one valid date and time that the time stamp counts up to. */
  method BreakTime(timeInput: nat) returns (tm: TmElements)
    requires timeInput < WORD
    ensures Valid(tm) && Seconds(tm) == CivilSeconds(tm) == timeInput
  {
    hide CivilSeconds, CivilDay, DaysBefore, DaysBeforeMonth, MonthDays, YearDays;
    var second, minute, hour, time := SplitTime(timeInput);
    var wday := (time + 4) % 7 + 1;
    var year, days := FindYear(time);
    var month, day := FindMonth(year, time - days);
    tm := TmElements(second, minute, hour, wday, day + 1, month + 1, year);
    assert DayNumber(year, month + 1, day + 1) == time;
    SecondsAreCivil(tm);
  }

  // ---------- makeTime ----------

  function LeapDays(year: nat): nat {
    if year == 0 then 0 else LeapDays(year - 1) + if Leap(year - 1) then 1 else 0
  }

  lemma {:induction false} YearsAndLeapDays(year: nat)
    ensures DaysBefore(year) == 365 * year + LeapDays(year)
    decreases year
  {
    if year > 0 { YearsAndLeapDays(year - 1); }
  }

  /** The seconds before the year, every operation on 32 bits. */
  method YearStart(year: nat) returns (seconds: nat)
    ensures seconds == DaysBefore(year) * SECS_PER_DAY % WORD
  {
    seconds := year * (SECS_PER_DAY * 365) % WORD;
    ghost var exact: int := year * 365;
    for i := 0 to year
      invariant exact == year * 365 + LeapDays(i) && seconds == exact * SECS_PER_DAY % WORD
    {
      if Leap(i) {
        AddWraps(exact * SECS_PER_DAY, SECS_PER_DAY);
        seconds := (seconds + SECS_PER_DAY) % WORD;
        exact := exact + 1;
      }
    }
    YearsAndLeapDays(year);
  }

  /** The seconds before the year and the month. */
  method MonthStart(tm: TmElements) returns (seconds: nat)
    requires tm.month <= 13
    ensures seconds == (DaysBefore(tm.year) + DaysBeforeMonth(tm.year, tm.month)) * SECS_PER_DAY % WORD
  {
    hide DaysBefore;
    seconds := YearStart(tm.year);
    ghost var exact: int := DaysBefore(tm.year);
    var i := 1;
    while i < tm.month
      invariant 1 <= i && (i <= tm.month || i == 1)
      invariant exact == DaysBefore(tm.year) + DaysBeforeMonth(tm.year, i) && seconds == exact * SECS_PER_DAY % WORD
    {
      ghost var length := MonthDays(tm.year, i);
      AddWraps(exact * SECS_PER_DAY, length * SECS_PER_DAY);
      if i == 2 && Leap(tm.year) {
        seconds := (seconds + SECS_PER_DAY * 29) % WORD;
      } else {
        assert MONTH_DAYS[i - 1] == length;
        seconds := (seconds + SECS_PER_DAY * MONTH_DAYS[i - 1]) % WORD;
      }
      exact := exact + length;
      i := i + 1;
    }
  }

  /** makeTime */
  method MakeTime(tm: TmElements) returns (t: nat)
    requires tm.month <= 13
    ensures t == Seconds(tm) % WORD == CivilSeconds(tm) % WORD
  {
    hide DaysBefore, DaysBeforeMonth, CivilSeconds;
    SecondsAreCivil(tm);
    var seconds := MonthStart(tm);
    ghost var exact: int := (DaysBefore(tm.year) + DaysBeforeMonth(tm.year, tm.month)) * SECS_PER_DAY;
    AddWraps(exact, (tm.day - 1) * SECS_PER_DAY);
    seconds := (seconds + (tm.day - 1) * SECS_PER_DAY) % WORD;
    exact := exact + (tm.day - 1) * SECS_PER_DAY;
    AddWraps(exact, tm.hour * 3600);
    seconds := (seconds + tm.hour * 3600) % WORD;
    AddWraps(exact + tm.hour * 3600, tm.minute * 60);
    seconds := (seconds + tm.minute * 60) % WORD;
    AddWraps(exact + tm.hour * 3600 + tm.minute * 60, tm.second);
    seconds := (seconds + tm.second) % WORD;
    return seconds;
  }

  // ---------- there and back ----------

  /** makeTime undoes breakTime for every 32-bit time stamp. */
  method MakeOfBreak(t: nat) returns (t': nat)
    requires t < WORD
    ensures t' == t
  {
    hide Seconds, CivilSeconds;
    var tm := BreakTime(t);
    t' := MakeTime(tm);
  }

  /** breakTime undoes makeTime for a valid date if and only if the date is before the 32-bit end of time. */
  method BreakOfMake(tm: TmElements) returns (tm': TmElements)
    requires Valid(tm)
    ensures tm' == tm <==> Seconds(tm) < WORD
  {
    hide Seconds, CivilSeconds;
    var t := MakeTime(tm);
    tm' := BreakTime(t);
    OnlyOne(tm, tm', t);
  }

  lemma Wrapped(s: nat)
    ensures s % WORD == s <==> s < WORD
  {
  }

  /** breakTime can give back only the date that makeTime was given. */
  lemma OnlyOne(tm: TmElements, e: TmElements, t: nat)
    requires Valid(tm) && Valid(e) && t == Seconds(tm) % WORD && Seconds(e) == t
    ensures e == tm <==> Seconds(tm) < WORD
  {
    var s := Seconds(tm);
    Wrapped(s);
    if s < WORD { SecondsInjective(e, tm); }
  }

  /** Every date up to the end of 2105 is early enough. */
  lemma UpTo2105(tm: TmElements)
    requires Valid(tm) && tm.year <= 135
    ensures Seconds(tm) < WORD
  {
    Gregorian(tm.year + 1);
    DateBounds(tm.year, tm.month, tm.day);
  }

  /** The last second is 06:28:15 on Sunday 7 February 2106. */
  lemma EndOfTime(year: nat)
    requires year == 136
    ensures var tm := TmElements(15, 28, 6, 1, 7, 2, year); Valid(tm) && Seconds(tm) == WORD - 1
  {
    Gregorian(year);
    LastSecond(year);
  }

  lemma LastSecond(year: nat)
    requires year < 256 && DaysBefore(year) == 49673
    ensures var tm := TmElements(15, 28, 6, 1, 7, 2, year); Valid(tm) && Seconds(tm) == WORD - 1
  {
    hide DaysBefore;
    assert DaysBeforeMonth(year, 2) == DaysBeforeMonth(year, 1) + MonthDays(year, 1) == 31;
    LastDay(year);
  }

  lemma LastDay(year: nat)
    requires DayNumber(year, 2, 7) == 49710
    ensures (DayNumber(year, 2, 7) + 4) % 7 + 1 == 1
    ensures DayNumber(year, 2, 7) * SECS_PER_DAY + 6 * 3600 + 28 * 60 + 15 == WORD - 1
  {
    hide DayNumber;
  }
}
