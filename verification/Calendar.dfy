/**
 Broken-down time (compat/compat-2.6.32.c): seconds since 1 January 1970, counted in either direction, to year,
 month, day and time of day.  The year is found by guessing with 365-day years and correcting the guess until
 it fits.
 */
module Calendar {
  import opened Arithmetic

  // `long` and `time_t` of a 64-bit machine; every intermediate value has to stay in this type
  type Long = x: int | -0x8000_0000_0000_0000 <= x < 0x8000_0000_0000_0000
  // `int`
  type Int = x: int | -0x8000_0000 <= x < 0x8000_0000

  const DAY: int := 86400

  // more days than the 64-bit seconds hold
  const BOUND: int := 0x1_0000_0000_0000

  // ---- the C operators ----

  /** C's division: truncates toward zero. */
  function Div(a: int, b: int): (q: int)
    requires b > 0
  {
    if a >= 0 then a / b else -(-a / b)
  }

  function Rem(a: int, b: int): (r: int)
    requires b > 0
  {
    a - Div(a, b) * b
  }

  lemma DivFloors(a: int, b: int)
    requires b > 0
    ensures Rem(a, b) < 0 ==> a / b == Div(a, b) - 1 && a % b == Rem(a, b) + b
    ensures Rem(a, b) >= 0 ==> a / b == Div(a, b) && a % b == Rem(a, b)
    ensures -b < Rem(a, b) < b
  {
    if a < 0 {
      var c := -a;
      assert c == c / b * b + c % b;
      var q := -(c / b);
      assert a == q * b - c % b;
      if c % b != 0 {
        assert a == (q - 1) * b + (b - c % b);
        DivModIs(a, b, q - 1, b - c % b);
      } else {
        DivModIs(a, b, q, 0);
      }
    }
  }

  // ---- the source's helpers ----

  predicate IsLeap(year: int) {
    Rem(year, 4) == 0 && (Rem(year, 100) != 0 || Rem(year, 400) == 0)
  }

  function MathDiv(a: int, b: int): (q: int)
    requires b > 0
    ensures q == a / b
  {
    DivFloors(a, b);
    Div(a, b) - if Rem(a, b) < 0 then 1 else 0
  }

  function LeapsUpTo(year: int): (n: int) {
    MathDiv(year - 1, 4) - MathDiv(year - 1, 100) + MathDiv(year - 1, 400)
  }

  function LeapsBetween(y1: int, y2: int): (n: int) {
    LeapsUpTo(y2) - LeapsUpTo(y1)
  }

  /** How many days come before each month; entry 12 is the length of the year. */
  function MonYday(leap: bool): (days: seq<int>)
    ensures |days| == 13
  {
    if leap then [0, 31, 60, 91, 121, 152, 182, 213, 244, 274, 305, 335, 366]
    else [0, 31, 59, 90, 120, 151, 181, 212, 243, 273, 304, 334, 365]
  }

  // ---- the Gregorian calendar, by counting ----

  function YearLength(year: int): (n: int) {
    if IsLeap(year) then 366 else 365
  }

  function MonthLength(year: int, month: nat): (n: int) {
    if month == 1 then (if IsLeap(year) then 29 else 28)
    else if month == 3 || month == 5 || month == 8 || month == 10 then 30
    else 31
  }

  /** The day number of 1 January, 1970 having 0: year by year, in both directions. */
  ghost function FirstDay(year: int): int
    decreases if year >= 1970 then year - 1970 else 1970 - year
  {
    if year == 1970 then 0
    else if year > 1970 then FirstDay(year - 1) + YearLength(year - 1)
    else FirstDay(year + 1) - YearLength(year)
  }

  /** The days of the year before the month. */
  ghost function FirstOfMonth(year: int, month: nat): int {
    if month == 0 then 0 else FirstOfMonth(year, month - 1) + MonthLength(year, month - 1)
  }

  datatype Tm = Tm(sec: int, min: int, hour: int, mday: int, mon: int, year: int, wday: int, yday: int)

  /** A date and time that exists, with the right day of the year and day of the week (0 is Sunday). */
  ghost predicate Valid(tm: Tm) {
    && 0 <= tm.sec < 60 && 0 <= tm.min < 60 && 0 <= tm.hour < 24
    && 0 <= tm.mon < 12 && 1 <= tm.mday <= MonthLength(tm.year + 1900, tm.mon)
    && tm.yday == FirstOfMonth(tm.year + 1900, tm.mon) + tm.mday - 1
    && tm.wday == (FirstDay(tm.year + 1900) + tm.yday + 4) % 7
  }

  /** The seconds from 1 January 1970 to the moment. */
  ghost function Seconds(tm: Tm): int {
    (FirstDay(tm.year + 1900) + tm.yday) * DAY + tm.hour * 3600 + tm.min * 60 + tm.sec
  }

  // ---- leap years ----

  lemma LeapIs(year: int)
    ensures IsLeap(year) <==> year % 4 == 0 && (year % 100 != 0 || year % 400 == 0)
  {
    DivFloors(year, 4);
    DivFloors(year, 100);
    DivFloors(year, 400);
  }

  lemma FloorStep(a: int, n: int)
    requires n > 0
    ensures a / n - (a - 1) / n == if a % n == 0 then 1 else 0
  {
    if a % n == 0 {
      DivModIs(a - 1, n, a / n - 1, n - 1);
    } else {
      DivModIs(a - 1, n, a / n, a % n - 1);
    }
  }

  lemma LeapsStep(year: int)
    ensures LeapsUpTo(year + 1) == LeapsUpTo(year) + if IsLeap(year) then 1 else 0
  {
    LeapIs(year);
    Multiples(year);
    var four, hundred, fourHundred := Step(year, 4), Step(year, 100), Step(year, 400);
    assert LeapsUpTo(year + 1) - LeapsUpTo(year) == four - hundred + fourHundred;
  }

  /** What one more year adds to the count of multiples of `n`. */
  function Step(year: int, n: int): (r: int)
    requires n > 0
    ensures r == if year % n == 0 then 1 else 0
  {
    FloorStep(year, n);
    MathDiv(year, n) - MathDiv(year - 1, n)
  }

  lemma Multiples(year: int)
    ensures year % 400 == 0 ==> year % 100 == 0
    ensures year % 100 == 0 ==> year % 4 == 0
  {
  }

  /** `LeapsBetween` counts the leap years: the year-by-year calendar agrees with the closed form. */
  lemma {:induction false} DaysBetween(a: int, b: int)
    ensures FirstDay(b) - FirstDay(a) == (b - a) * 365 + LeapsBetween(a, b)
    decreases if a <= b then b - a else a - b
  {
    if a < b {
      LeapsStep(b - 1);
      DaysBetween(a, b - 1);
      NextYear(b - 1);
    } else if b < a {
      LeapsStep(b);
      DaysBetween(a, b + 1);
      NextYear(b);
    }
  }

  lemma NextYear(year: int)
    ensures FirstDay(year + 1) == FirstDay(year) + YearLength(year)
  {
  }

  lemma {:induction false} LeapsBound(a: int, n: nat)
    ensures 0 <= LeapsBetween(a, a + n)
    ensures 4 * LeapsBetween(a, a + n) <= n + 3
  {
    var c, c' := (a - 1) / 100, (a + n - 1) / 100;
    assert c <= c';
    assert (a - 1) / 400 == c / 4 && (a + n - 1) / 400 == c' / 4;
    assert c' / 4 - c / 4 <= c' - c;
    LeapsNeverDrop(a, n);
  }

  lemma {:induction false} LeapsNeverDrop(a: int, n: nat)
    ensures 0 <= LeapsBetween(a, a + n)
  {
    if n > 0 {
      LeapsNeverDrop(a, n - 1);
      NoDrop(a + (n - 1), a + n);
    }
  }

  lemma NoDrop(year: int, next: int)
    requires next == year + 1
    ensures LeapsUpTo(next) >= LeapsUpTo(year)
  {
    LeapsStep(year);
  }

  // ---- the guessing loop ----

  predicate Fits(days: int, year: int) {
    0 <= days < YearLength(year)
  }

  /** How far off the guess is, in years of 365 days. */
  function Off(days: int, year: int): (n: nat)
    ensures n == 0 <==> Fits(days, year)
  {
    if Fits(days, year) then 0 else if days < 0 then -(days / 365) else days / 365
  }

  /** `q` years are 365 days each, and a quarter day more at most. */
  lemma YearsAhead(year: int, q: nat)
    requires q > 0
    ensures var span := FirstDay(year + q) - FirstDay(year);
      q * 365 <= span && 4 * (span - q * 365) <= q + 3 && (q == 1 ==> span == YearLength(year))
  {
    LeapsBound(year, q);
    DaysBetween(year, year + q);
    NextYear(year);
  }

  /** A corrected guess is nearer: this is why the loop ends. */
  lemma Nearer(days: int, year: int)
    requires !Fits(days, year)
    ensures var q := days / 365;
      Off(days - (FirstDay(year + q) - FirstDay(year)), year + q) < Off(days, year)
  {
    var q := days / 365;
    if q > 0 {
      YearsAhead(year, q);
    } else {
      YearsAhead(year + q, -q);
    }
    NearerBy(days, year, q, FirstDay(year + q) - FirstDay(year));
  }

  lemma NearerBy(days: int, year: int, q: int, span: int)
    requires !Fits(days, year) && q == days / 365
    requires q > 0 ==> 0 <= 4 * (span - q * 365) <= q + 3 && (q == 1 ==> span == YearLength(year))
    requires q < 0 ==> -(3 - q) <= 4 * (span - q * 365) <= 0 && (q == -1 ==> -span == YearLength(year - 1))
    ensures Off(days - span, year + q) < Off(days, year)
  {
    assert days - span == days % 365 - (span - q * 365);
  }

  /** The numbers stay small. */
  lemma StaysSmall(days: int, year: int)
    requires !Fits(days, year)
    ensures var q, span := days / 365, FirstDay(year + days / 365) - FirstDay(year);
      Within(q, days) && Within(span - q * 365, days) && Within(q * 365, 400 * days) && Within(span, 400 * days)
      && (Within(days - span, days) || Within(days - span, 1000))
  {
    var q := days / 365;
    if q > 0 {
      YearsAhead(year, q);
    } else {
      YearsAhead(year + q, -q);
    }
    SmallBy(days, q, FirstDay(year + q) - FirstDay(year));
  }

  lemma SmallBy(days: int, q: int, span: int)
    requires q == days / 365 && q != 0
    requires q > 0 ==> 0 <= 4 * (span - q * 365) <= q + 3
    requires q < 0 ==> -(3 - q) <= 4 * (span - q * 365) <= 0
    ensures Within(q, days) && Within(span - q * 365, days) && Within(q * 365, 400 * days) && Within(span, 400 * days)
    ensures Within(days - span, days) || Within(days - span, 1000)
  {
  }

  predicate Within(x: int, bound: int) {
    if bound >= 0 then -bound <= x <= bound else bound <= x <= -bound
  }

  lemma YearSmall(year: int)
    ensures Within((year - 1970) * 365, FirstDay(year))
  {
    DaysBetween(1970, year);
    if year >= 1970 {
      LeapsNeverDrop(1970, year - 1970);
    } else {
      LeapsNeverDrop(year, 1970 - year);
    }
  }

  // ---- months ----

  lemma MonthTable(year: int, month: nat)
    requires month <= 12
    ensures FirstOfMonth(year, month) == MonYday(IsLeap(year))[month]
  {
    if month > 0 {
      MonthTable(year, month - 1);
    }
  }

  /**
   The broken-down time is a date that exists and lies exactly `totalsecs + offset` seconds from the start of
   1970, whatever the signs, and no step of the calculation leaves the 64-bit range.
   */
  method TimeToTm(totalsecs: Long, offset: Int) returns (tm: Tm)
    ensures Valid(tm)
    ensures Seconds(tm) == totalsecs + offset
  {
    var days: Long, rem: Long := Div(totalsecs, DAY), Rem(totalsecs, DAY);
    DivFloors(totalsecs, DAY);
    rem := rem + offset;
    while rem < 0
      invariant days * DAY + rem == totalsecs + offset
      invariant -0x8100_0000 <= rem <= 0x8100_0000
      invariant Within(days, BOUND - DAY)
      decreases -rem
    {
      rem := rem + DAY;
      days := days - 1;
    }
    while rem >= DAY
      invariant days * DAY + rem == totalsecs + offset
      invariant 0 <= rem <= 0x8100_0000
      invariant Within(days, BOUND - DAY)
    {
      rem := rem - DAY;
      days := days + 1;
    }
    var hour, min, sec := rem / 3600, rem % 3600 / 60, rem % 3600 % 60;
    var wday := WeekDay(days);
    var y: Long;
    y, days := FindYear(days);
    var mon, mday := FindMonth(y, days);
    tm := Tm(sec, min, hour, mday, mon, y - 1900, wday, days);
  }

  method WeekDay(days: Long) returns (wday: int)
    requires days < 0x4000_0000_0000_0000
    ensures wday == (days + 4) % 7
  {
    DivFloors(4 + days, 7);
    wday := Rem(4 + days, 7);
    if wday < 0 {
      wday := wday + 7;
    }
  }

  /** One turn of the loop, and why it stays in range. */
  lemma Guess(days: int, year: int)
    requires !Fits(days, year) && Within(days, BOUND) && Within(FirstDay(year) + days, BOUND)
    ensures var yg := year + days / 365;
      var leaps := LeapsBetween(year, yg);
      InRange(days, leaps, yg, days / 365 * 365) && FirstDay(yg) - FirstDay(year) == days / 365 * 365 + leaps
    ensures var yg := year + days / 365; Off(days - (FirstDay(yg) - FirstDay(year)), yg) < Off(days, year)
  {
    Nearer(days, year);
    StaysSmall(days, year);
    DaysBetween(year, year + days / 365);
    GuessedYearSmall(days, year);
  }

  predicate InRange(days: int, leaps: int, yg: int, years: int) {
    && Within(leaps, BOUND) && Within(years, 400 * BOUND) && Within(years + leaps, 400 * BOUND)
    && Within(days - (years + leaps), BOUND) && Within(yg - 1970, BOUND)
  }

  lemma GuessedYearSmall(days: int, year: int)
    requires !Fits(days, year) && Within(days, BOUND) && Within(FirstDay(year) + days, BOUND)
    ensures Within(year + days / 365 - 1970, BOUND)
  {
    StaysSmall(days, year);
    YearSmall(year + days / 365);
  }

  method FindYear(total: Long) returns (y: Long, days: Long)
    requires Within(total, BOUND)
    ensures Fits(days, y) && FirstDay(y) + days == total
    ensures Within(y - 1970, BOUND)
  {
    y, days := 1970, total;
    while days < 0 || days >= YearLength(y)
      invariant FirstDay(y) + days == total && Within(days, BOUND) && Within(y - 1970, BOUND)
      decreases Off(days, y)
    {
      Guess(days, y);
      y, days := CorrectYear(y, days);
    }
  }

  method CorrectYear(y: Long, days: Long) returns (yg: Long, days': Long)
    requires Within(days, BOUND) && Within(y - 1970, BOUND)
    requires InRange(days, LeapsBetween(y, y + days / 365), y + days / 365, days / 365 * 365)
    ensures yg == y + days / 365
    ensures days' == days - (days / 365 * 365 + LeapsBetween(y, yg))
  {
    yg := y + MathDiv(days, 365);
    var years: Long := (yg - y) * 365;
    var leaps: Long := LeapsBetween(y, yg);
    var both: Long := years + leaps;
    days' := days - both;
  }

  method FindMonth(year: int, yday: int) returns (mon: int, mday: int)
    requires Fits(yday, year)
    ensures 0 <= mon < 12 && 1 <= mday <= MonthLength(year, mon)
    ensures yday == FirstOfMonth(year, mon) + mday - 1
  {
    var ip := MonYday(IsLeap(year));
    mon := 11;
    MonthTable(year, 12);
    MonthTable(year, 11);
    while yday < ip[mon]
      invariant 0 <= mon < 12
      invariant yday < FirstOfMonth(year, mon + 1)
      decreases mon
    {
      mon := mon - 1;
      MonthTable(year, mon);
      MonthTable(year, mon + 1);
    }
    MonthTable(year, mon);
    mday := yday - ip[mon] + 1;
  }

  // ---- the calendar is a line: the answer is the only one ----

  predicate Earlier(a: Tm, b: Tm) {
    || a.year < b.year
    || (a.year == b.year && a.mon < b.mon)
    || (a.year == b.year && a.mon == b.mon && a.mday < b.mday)
    || (a.year == b.year && a.mon == b.mon && a.mday == b.mday && ClockEarlier(a, b))
  }

  predicate ClockEarlier(a: Tm, b: Tm) {
    || a.hour < b.hour
    || (a.hour == b.hour && a.min < b.min)
    || (a.hour == b.hour && a.min == b.min && a.sec < b.sec)
  }

  lemma {:induction false} YearsGrow(a: int, b: int)
    requires a < b
    ensures FirstDay(a) + YearLength(a) <= FirstDay(b)
    decreases b - a
  {
    NextYear(b - 1);
    if a < b - 1 {
      YearsGrow(a, b - 1);
    }
  }

  lemma {:induction false} MonthsGrow(year: int, a: nat, b: nat)
    requires a < b
    ensures FirstOfMonth(year, a) + MonthLength(year, a) <= FirstOfMonth(year, b)
  {
    if a < b - 1 {
      MonthsGrow(year, a, b - 1);
    }
  }

  lemma YdayFits(tm: Tm)
    requires Valid(tm)
    ensures Fits(tm.yday, tm.year + 1900)
  {
    MonthTable(tm.year + 1900, 12);
    MonthTable(tm.year + 1900, 0);
    MonthsGrow(tm.year + 1900, tm.mon, 12);
    if tm.mon > 0 {
      MonthsGrow(tm.year + 1900, 0, tm.mon);
    }
  }

  /** A later date and time has the larger second count. */
  lemma OrderKept(a: Tm, b: Tm)
    requires Valid(a) && Valid(b) && Earlier(a, b)
    ensures Seconds(a) < Seconds(b)
  {
    YdayFits(a);
    YdayFits(b);
    if a.year < b.year {
      YearsGrow(a.year + 1900, b.year + 1900);
    } else if a.mon < b.mon {
      MonthsGrow(a.year + 1900, a.mon, b.mon);
    }
  }

  /** So the date and time of a second count is unique. */
  lemma OneTm(a: Tm, b: Tm)
    requires Valid(a) && Valid(b) && Seconds(a) == Seconds(b)
    ensures a == b
  {
    if Earlier(a, b) {
      OrderKept(a, b);
    } else if Earlier(b, a) {
      OrderKept(b, a);
    }
  }

  // ---- rules of the calendar that use nothing of the above

  /** From March on the months have 31 and 30 days in turn, and again from August on, as January and March have 31;
      February has the rest. The table of the source agrees. */
  lemma MonthRule(year: int, month: nat)
    requires month < 12
    ensures MonthLength(year, month) ==
      if month == 1 then (if year % 4 == 0 && (year % 100 != 0 || year % 400 == 0) then 29 else 28)
      else if (month + month / 7) % 2 == 0 then 31 else 30
    ensures MonYday(IsLeap(year))[month + 1] - MonYday(IsLeap(year))[month] == MonthLength(year, month)
  {
    LeapIs(year);
  }

  /** The calendar repeats every 400 years, which are 146097 days and so 20871 weeks. */
  lemma FourCenturies(year: int)
    ensures FirstDay(year + 400) == FirstDay(year) + 146097
    ensures YearLength(year + 400) == YearLength(year)
  {
    DaysBetween(year, year + 400);
    LeapIs(year);
    LeapIs(year + 400);
  }

  /** The second count of a date by the closed formula; 1 January 1970 is a Thursday. */
  lemma Moment(tm: Tm, year: int, leap: bool, first: int)
    requires year == tm.year + 1900 && (leap <==> year % 4 == 0 && (year % 100 != 0 || year % 400 == 0))
    requires first == (year - 1970) * 365 + ((year - 1) / 4 - (year - 1) / 100 + (year - 1) / 400) - 477
    requires 0 <= tm.sec < 60 && 0 <= tm.min < 60 && 0 <= tm.hour < 24 && 0 <= tm.mon < 12
    requires 1 <= tm.mday <= MonYday(leap)[tm.mon + 1] - MonYday(leap)[tm.mon]
    requires tm.yday == MonYday(leap)[tm.mon] + tm.mday - 1 && tm.wday == (first + tm.yday + 4) % 7
    ensures Valid(tm) && Seconds(tm) == (first + tm.yday) * 86400 + tm.hour * 3600 + tm.min * 60 + tm.sec
  {
    ClosedForm(year);
    MonthTable(year, tm.mon);
    MonthRule(year, tm.mon);
  }

  lemma ClosedForm(year: int)
    ensures FirstDay(year) == (year - 1970) * 365 + ((year - 1) / 4 - (year - 1) / 100 + (year - 1) / 400) - 477
    ensures IsLeap(year) <==> year % 4 == 0 && (year % 100 != 0 || year % 400 == 0)
  {
    DaysBetween(1970, year);
    LeapIs(year);
    assert LeapsUpTo(1970) == 477;
  }
}
