/** Week-based year and week number of the {fmt} date formatter, against the week calendar of
    ISO 8601:2004, section 3.2.2: the week belongs to the year of its Thursday, and is numbered by
    counting the Thursdays of that year. */
module IsoWeek {

  // ----- the calendar -----

  predicate IsLeap(y: int) { y % 4 == 0 && (y % 100 != 0 || y % 400 == 0) }

  function DaysIn(y: int): nat { if IsLeap(y) then 366 else 365 }

  /** Days of the proleptic Gregorian calendar before year y. */
  function DaysBefore(y: nat): nat
    requires y >= 1
  {
    if y == 1 then 0 else DaysBefore(y - 1) + DaysIn(y - 1)
  }

  /** Sunday is 0; the first day of year 1 is a Monday. */
  function Weekday(y: nat, yday: nat): nat
    requires y >= 1
  {
    (DaysBefore(y) + yday + 1) % 7
  }

  const THURSDAY: nat := 4

  /** How many of the first n days of a year are Thursdays. */
  function Thursdays(y: nat, n: nat): nat
    requires y >= 1
  {
    if n == 0 then 0 else Thursdays(y, n - 1) + (if Weekday(y, n - 1) == THURSDAY then 1 else 0)
  }

  /** Monday is 1 and Sunday is 7. */
  function FromMonday(wday: nat): nat { if wday == 0 then 7 else wday }

  datatype Day = Day(year: int, yday: int)

  /** The Thursday of the Monday-to-Sunday week around a day. */
  function WeekThursday(y: nat, yday: nat, wday: nat): Day {
    var t := yday + THURSDAY - FromMonday(wday);
    if t < 0 then Day(y - 1, t + DaysIn(y - 1))
    else if t >= DaysIn(y) then Day(y + 1, t - DaysIn(y))
    else Day(y, t)
  }

  predicate IsDate(y: nat, yday: nat, wday: nat) {
    y >= 1 && yday < DaysIn(y) && wday == Weekday(y, yday)
  }

  // ----- the code -----

  /** Division and remainder that truncate toward zero. */
  function Quot(a: int, b: int): int
    requires b > 0
  {
    if a >= 0 then a / b else -((-a) / b)
  }

  function Rem(a: int, b: int): int
    requires b > 0
  {
    a - b * Quot(a, b)
  }

  function YearPhase(y: int): int {
    Rem(y + Quot(y, 4) - Quot(y, 100) + Quot(y, 400), 7)
  }

  function IsoYearWeeks(year: int): int {
    52 + (if YearPhase(year) == 4 || YearPhase(year - 1) == 3 then 1 else 0)
  }

  function IsoWeekNum(yday: int, wday: int): int {
    Quot(yday + 11 - (if wday == 0 then 7 else wday), 7)
  }

  function TmIsoWeekYear(year: int, yday: int, wday: int): int {
    var w := IsoWeekNum(yday, wday);
    if w < 1 then year - 1
    else if w > IsoYearWeeks(year) then year + 1
    else year
  }

  function TmIsoWeekOfYear(year: int, yday: int, wday: int): int {
    var w := IsoWeekNum(yday, wday);
    if w < 1 then IsoYearWeeks(year - 1)
    else if w > IsoYearWeeks(year) then 1
    else w
  }

  // ----- leap years in closed form -----

  lemma DivideNext(y: nat)
    requires y >= 1
    ensures y / 4 == (y - 1) / 4 + (if y % 4 == 0 then 1 else 0)
    ensures y / 100 == (y - 1) / 100 + (if y % 100 == 0 then 1 else 0)
    ensures y / 400 == (y - 1) / 400 + (if y % 400 == 0 then 1 else 0)
  {
    DivideBy(y, 4);
    DivideBy(y, 100);
    DivideBy(y, 400);
  }

  lemma DivideBy(y: nat, k: nat)
    requires y >= 1 && (k == 4 || k == 100 || k == 400)
    ensures y / k == (y - 1) / k + (if y % k == 0 then 1 else 0)
  {
    if k == 4 {
    } else if k == 100 {
    } else {
    }
  }

  lemma {:induction false} DaysClosed(y: nat)
    ensures DaysBefore(y + 1) == 365 * y + y / 4 - y / 100 + y / 400
  {
    if y > 0 {
      DaysClosed(y - 1);
      DivideNext(y);
      Multiples(y);
    }
  }

  lemma Multiples(y: nat)
    ensures y % 400 == 0 ==> y % 100 == 0
    ensures y % 100 == 0 ==> y % 4 == 0
  {
    var q, p := y / 400, y / 100;
    assert y == 400 * q + y % 400 && y == 100 * p + y % 100;
    if y % 400 == 0 {
      Multiple(y, 4 * q, 100);
    }
    if y % 100 == 0 {
      Multiple(y, 25 * p, 4);
    }
  }

  lemma Multiple(y: nat, q: nat, k: nat)
    requires (k == 4 || k == 100) && y == k * q
    ensures y % k == 0
  {
    if k == 4 {
      assert y == 4 * q;
    } else {
      assert y == 100 * q;
    }
  }

  /** The phase of a year is the weekday of its last day. */
  lemma PhaseIsLastDay(y: nat)
    ensures YearPhase(y) == DaysBefore(y + 1) % 7
  {
    hide DaysBefore, YearPhase;
    DaysClosed(y);
    var x := y + y / 4 - y / 100 + y / 400;
    assert DaysBefore(y + 1) == 7 * (52 * y) + x;
    WholeWeeks(52 * y, x);
    PhaseFormula(y);
  }

  lemma WholeWeeks(weeks: int, x: int)
    ensures (7 * weeks + x) % 7 == x % 7
  {
  }

  lemma PhaseFormula(y: nat)
    ensures YearPhase(y) == (y + y / 4 - y / 100 + y / 400) % 7
  {
    var x := y + y / 4 - y / 100 + y / 400;
    assert y / 100 <= y;
    assert x >= 0;
    assert x == 7 * (x / 7) + x % 7;
  }

  // ----- counting Thursdays -----

  /** The index of the first Thursday of a year. */
  function FirstThursday(y: nat): (f: nat)
    requires y >= 1
    ensures f < 7
  {
    (3 - DaysBefore(y)) % 7
  }

  lemma ThursdayIff(y: nat, d: nat)
    requires y >= 1
    ensures Weekday(y, d) == THURSDAY <==> d % 7 == FirstThursday(y)
  {
    var x := DaysBefore(y);
    assert (x + d + 1) % 7 == 4 <==> (x + d - 3) % 7 == 0;
    assert (x + d - 3) % 7 == 0 <==> d % 7 == (3 - x) % 7;
  }

  lemma {:induction false} ThursdaysClosed(y: nat, n: nat)
    requires y >= 1
    ensures Thursdays(y, n) == (n + 6 - FirstThursday(y)) / 7
    decreases n
  {
    if n > 0 {
      ThursdaysClosed(y, n - 1);
      ThursdayIff(y, n - 1);
      NextQuotient(n - 1, FirstThursday(y));
    }
  }

  lemma NextQuotient(n: nat, f: nat)
    requires f < 7
    ensures (n + 7 - f) / 7 == (n + 6 - f) / 7 + (if n % 7 == f then 1 else 0)
  {
  }

  lemma ThursdayNumber(y: nat, d: nat)
    requires y >= 1 && d % 7 == FirstThursday(y)
    ensures Thursdays(y, d + 1) == d / 7 + 1
  {
    ThursdaysClosed(y, d + 1);
  }

  /** The number of weeks is the number of Thursdays. */
  lemma WeeksOfYear(y: nat)
    requires y >= 1
    ensures IsoYearWeeks(y) == 52 + (if (DaysIn(y) - 1) % 7 == FirstThursday(y) || FirstThursday(y) == 0 then 1 else 0)
    ensures IsoYearWeeks(y) == Thursdays(y, DaysIn(y))
  {
    hide DaysBefore, Thursdays, YearPhase;
    PhaseIsLastDay(y);
    PhaseIsLastDay(y - 1);
    assert DaysBefore(y + 1) == DaysBefore(y) + DaysIn(y) by { YearLength(y); }
    PhaseFacts(DaysBefore(y), DaysIn(y), FirstThursday(y));
    ThursdaysClosed(y, DaysIn(y));
  }

  lemma YearLength(y: nat)
    requires y >= 1
    ensures DaysBefore(y + 1) == DaysBefore(y) + DaysIn(y)
  {
  }

  lemma PhaseFacts(x: nat, n: nat, f: nat)
    requires f == (3 - x) % 7 && (n == 365 || n == 366)
    ensures (x + n) % 7 == 4 <==> (n - 1) % 7 == f
    ensures x % 7 == 3 <==> f == 0
    ensures (n + 6 - f) / 7 == 52 + (if (n - 1) % 7 == f || f == 0 then 1 else 0)
  {
    var q := x / 7;
    assert x == 7 * q + x % 7;
    assert f == if x % 7 <= 3 then 3 - x % 7 else 10 - x % 7;
  }

  /** The Thursday of the week is a Thursday of its own year. */
  lemma ThursdayOfWeek(y: nat, yday: nat, wday: nat)
    requires IsDate(y, yday, wday)
    ensures var th := WeekThursday(y, yday, wday);
            th.year >= 1 && 0 <= th.yday < DaysIn(th.year) && th.yday % 7 == FirstThursday(th.year)
  {
    var t := yday + THURSDAY - FromMonday(wday);
    assert (DaysBefore(y) + t + 1) % 7 == 4;
    if t < 0 {
      assert DaysBefore(1) == 0;
      assert y > 1;
      assert DaysBefore(y) == DaysBefore(y - 1) + DaysIn(y - 1);
      ThursdayIff(y - 1, t + DaysIn(y - 1));
    } else if t >= DaysIn(y) {
      assert DaysBefore(y + 1) == DaysBefore(y) + DaysIn(y);
      ThursdayIff(y + 1, t - DaysIn(y));
    } else {
      ThursdayIff(y, t);
    }
  }

  /** For every date of year 1 or later the code names the year of that Thursday and its number in it. */
  lemma IsoWeekIsThursdayCount(y: nat, yday: nat, wday: nat)
    requires IsDate(y, yday, wday)
    ensures var th := WeekThursday(y, yday, wday);
            th.year >= 1 && th.yday >= 0 &&
            TmIsoWeekYear(y, yday, wday) == th.year &&
            TmIsoWeekOfYear(y, yday, wday) == Thursdays(th.year, th.yday + 1)
  {
    hide Thursdays, FirstThursday, DaysBefore, IsoYearWeeks;
    var th := WeekThursday(y, yday, wday);
    var t := yday + THURSDAY - FromMonday(wday);
    ThursdayOfWeek(y, yday, wday);
    ThursdayNumber(th.year, th.yday);
    WeeksOfYear(th.year);
    WeeksOfYear(y);
    WeekNum(yday, wday);
    if t >= DaysIn(y) {
      NextYear(y, t, FirstThursday(y), FirstThursday(y + 1));
    }
  }

  lemma WeekNum(yday: nat, wday: nat)
    requires wday < 7
    ensures IsoWeekNum(yday, wday) == (yday + THURSDAY - FromMonday(wday) + 7) / 7
  {
  }

  /** A week whose Thursday falls behind the end of its year is the first of the next. */
  lemma NextYear(y: nat, t: nat, f: nat, g: nat)
    requires y >= 1 && DaysIn(y) <= t < DaysIn(y) + 3
    requires f == FirstThursday(y) && g == FirstThursday(y + 1) && (t - DaysIn(y)) % 7 == g
    ensures IsoYearWeeks(y) == 52 && (t + 7) / 7 == 53
    ensures Thursdays(y + 1, t - DaysIn(y) + 1) == 1
  {
    hide Weekday, Thursdays, IsoYearWeeks, DaysBefore;
    WeeksOfYear(y);
    ThursdayNumber(y + 1, t - DaysIn(y));
    YearLength(y);
    NextFirst(DaysBefore(y), DaysIn(y), t, f, g);
  }

  lemma NextFirst(x: nat, n: nat, t: nat, f: nat, g: nat)
    requires (n == 365 || n == 366) && n <= t < n + 3
    requires f == (3 - x) % 7 && g == (3 - (x + n)) % 7 && (t - n) % 7 == g
    ensures f != 0 && (n - 1) % 7 != f
  {
    assert t % 7 == f;
  }
}
