/**
 Civil dates and day numbers, as sections 21.4.1.3 to 21.4.1.12 of ECMA-262 define them: day 0 is 1970-01-01.
 */
module CivilDate {

  predicate IsLeap(y: int) { y % 4 == 0 && (y % 100 != 0 || y % 400 == 0) }

  function DaysInYear(y: int): int { if IsLeap(y) then 366 else 365 }

  /** Day number of January 1 of year `y`. */
  function DayFromYear(y: int): int {
    365 * (y - 1970) + (y - 1969) / 4 - (y - 1901) / 100 + (y - 1601) / 400
  }

  lemma Div4(x: int, q: int)
    requires 4 * q <= x < 4 * q + 4
    ensures x / 4 == q && x % 4 == x - 4 * q
  {
  }

  lemma Div100(x: int, q: int)
    requires 100 * q <= x < 100 * q + 100
    ensures x / 100 == q && x % 100 == x - 100 * q
  {
  }

  lemma Div400(x: int, q: int)
    requires 400 * q <= x < 400 * q + 400
    ensures x / 400 == q && x % 400 == x - 400 * q
  {
  }

  lemma FourYears(y: int, q: int)
    requires 4 * q <= y < 4 * q + 4
    ensures (y - 1968) / 4 == (y - 1969) / 4 + if y % 4 == 0 then 1 else 0
  {
    Div4(y, q);
    Div4(y - 1968, q - 492);
    Div4(y - 1969, if y == 4 * q then q - 493 else q - 492);
  }

  lemma Centuries(y: int, q: int)
    requires 100 * q <= y < 100 * q + 100
    ensures (y - 1900) / 100 == (y - 1901) / 100 + if y % 100 == 0 then 1 else 0
  {
    Div100(y, q);
    Div100(y - 1900, q - 19);
    Div100(y - 1901, if y == 100 * q then q - 20 else q - 19);
  }

  lemma FourCenturies(y: int, q: int)
    requires 400 * q <= y < 400 * q + 400
    ensures (y - 1600) / 400 == (y - 1601) / 400 + if y % 400 == 0 then 1 else 0
  {
    Div400(y, q);
    Div400(y - 1600, q - 4);
    Div400(y - 1601, if y == 400 * q then q - 5 else q - 4);
  }

  /** Every fourth century year is a century year, and those are fourth years. */
  lemma LeapCycles(y: int)
    ensures y % 100 == 0 ==> y % 4 == 0
    ensures y % 400 == 0 ==> y % 100 == 0
  {
    if y % 100 == 0 {
      var q := y / 100;
      assert y == 100 * q;
      Div4(y, 25 * q);
    }
    if y % 400 == 0 {
      var q := y / 400;
      assert y == 400 * q;
      Div100(y, 4 * q);
    }
  }

  lemma LeapRule(y: int)
    ensures IsLeap(y) <==> y % 4 == 0 && (y % 100 != 0 || y % 400 == 0)
  {
  }

  lemma YearLength(y: int)
    ensures DayFromYear(y + 1) == DayFromYear(y) + DaysInYear(y)
  {
    hide IsLeap;
    FourYears(y, y / 4);
    Centuries(y, y / 100);
    FourCenturies(y, y / 400);
    LeapCycles(y);
    assert IsLeap(y) <==> y % 4 == 0 && (y % 100 != 0 || y % 400 == 0) by { LeapRule(y); }
  }

  lemma {:induction false} DayFromYearMonotone(a: int, b: int)
    requires a <= b
    ensures DayFromYear(a) + 365 * (b - a) <= DayFromYear(b)
    decreases b - a
  {
    if a < b {
      DayFromYearMonotone(a, b - 1);
      YearLength(b - 1);
    }
  }

  /** The largest year that has begun on day `n`. */
  function YearFromDay(n: int): (y: int)
    ensures DayFromYear(y) <= n < DayFromYear(y + 1)
  {
    var g := 1970 + 400 * n / 146097;
    YearGuess(n);
    if n < DayFromYear(g) then g - 1 else if DayFromYear(g + 1) <= n then g + 1 else g
  }

  /** 400 Gregorian years are 146097 days, so the proportional guess is off by at most one. */
  lemma YearGuess(n: int)
    ensures var g := 1970 + 400 * n / 146097; DayFromYear(g - 1) <= n < DayFromYear(g + 2)
  {
    var k := 400 * n / 146097;
    assert 146097 * k <= 400 * n < 146097 * (k + 1);
    YearBounds(k - 1);
    YearBounds(k + 2);
  }

  lemma YearBounds(k: int)
    ensures 146097 * k - 506 <= 400 * DayFromYear(1970 + k) <= 146097 * k + 589
  {
    var a, b, c := (k + 1) / 4, (k + 69) / 100, (k + 369) / 400;
    assert k - 2 <= 4 * a <= k + 1;
    assert k - 30 <= 100 * b <= k + 69;
    assert k - 30 <= 400 * c <= k + 369;
  }

  lemma YearUnique(n: int, y: int)
    requires DayFromYear(y) <= n < DayFromYear(y + 1)
    ensures YearFromDay(n) == y
  {
    hide DayFromYear, YearFromDay;
    var z := YearFromDay(n);
    if y < z { DayFromYearMonotone(y + 1, z); }
    if z < y { DayFromYearMonotone(z + 1, y); }
  }

  /** Length of a month counted from 0. */
  function MonthLength(m: int, leap: bool): int {
    if m == 1 then (if leap then 29 else 28)
    else if m == 3 || m == 5 || m == 8 || m == 10 then 30
    else 31
  }

  /** Days of the year before month `m`, counted from 0. */
  function DaysBefore(m: nat, leap: bool): nat
    decreases m, leap
  {
    if m == 0 then 0 else DaysBefore(m - 1, leap) + MonthLength(m - 1, leap)
  }

  /** The first month from `m` on that ends after day `d` of the year. */
  function MonthFrom(d: int, leap: bool, m: nat): (r: nat)
    requires m < 12 && DaysBefore(m, leap) <= d < DaysBefore(12, leap)
    ensures m <= r < 12 && DaysBefore(r, leap) <= d < DaysBefore(r + 1, leap)
    decreases 12 - m, d
  {
    if d < DaysBefore(m + 1, leap) then m else MonthFrom(d, leap, m + 1)
  }

  lemma {:induction false} DaysBeforeMonotone(a: nat, b: nat, leap: bool)
    requires a <= b
    ensures DaysBefore(a, leap) + 28 * (b - a) <= DaysBefore(b, leap)
  {
    if a < b { DaysBeforeMonotone(a, b - 1, leap); }
  }

  lemma MonthEnds(m: nat, leap: bool)
    requires m > 0
    ensures DaysBefore(m, leap) == DaysBefore(m - 1, leap) + MonthLength(m - 1, leap)
  {
  }

  lemma YearEnds(leap: bool)
    ensures DaysBefore(0, leap) == 0 && DaysBefore(12, leap) == if leap then 366 else 365
  {
    var d := if leap then 1 else 0;
    assert DaysBefore(1, leap) == 31;
    assert DaysBefore(2, leap) == 59 + d;
    assert DaysBefore(3, leap) == 90 + d;
    assert DaysBefore(4, leap) == 120 + d;
    assert DaysBefore(5, leap) == 151 + d;
    assert DaysBefore(6, leap) == 181 + d;
    assert DaysBefore(7, leap) == 212 + d;
    assert DaysBefore(8, leap) == 243 + d;
    assert DaysBefore(9, leap) == 273 + d;
    assert DaysBefore(10, leap) == 304 + d;
    assert DaysBefore(11, leap) == 334 + d;
  }

  /** Month and day are counted from 1. */
  datatype Date = Date(year: int, month: int, day: int)

  function DaysInMonth(y: int, m: int): int { MonthLength(m - 1, IsLeap(y)) }

  predicate ValidDate(d: Date) {
    1 <= d.month <= 12 && 1 <= d.day <= DaysInMonth(d.year, d.month)
  }

  lemma DayWithinYear(n: int)
    ensures var y := YearFromDay(n);
            DaysBefore(0, IsLeap(y)) == 0 <= n - DayFromYear(y) < DaysBefore(12, IsLeap(y))
  {
    hide DayFromYear, YearFromDay, DaysBefore;
    var y := YearFromDay(n);
    YearLength(y);
    YearEnds(IsLeap(y));
  }

  function FromDay(n: int): (d: Date)
    ensures ValidDate(d)
  {
    var y := YearFromDay(n);
    DayWithinYear(n);
    var inYear := n - DayFromYear(y);
    var m := MonthFrom(inYear, IsLeap(y), 0);
    Date(y, m + 1, inYear - DaysBefore(m, IsLeap(y)) + 1)
  }

  /** MakeDay: months outside 0..11 carry into the year, days outside the month into the day number. */
  function MakeDay(year: int, month: int, day: int): int {
    var ym, mn := year + month / 12, month % 12;
    DayFromYear(ym) + DaysBefore(mn, IsLeap(ym)) + day - 1
  }

  function ToDay(d: Date): int { MakeDay(d.year, d.month - 1, d.day) }

  /** Day number to civil date and back, for every day. */
  lemma DayDateDay(n: int)
    ensures ToDay(FromDay(n)) == n
  {
    hide DayFromYear, DaysBefore, YearFromDay, MonthFrom, IsLeap;
    var m := FromDay(n).month - 1;
    assert m / 12 == 0 && m % 12 == m;
  }

  /** Civil date to day number and back, for every valid date. */
  lemma DateDayDate(d: Date)
    requires ValidDate(d)
    ensures FromDay(ToDay(d)) == d
  {
    hide DayFromYear, YearFromDay, MonthFrom, MonthLength, IsLeap, DaysBefore;
    assert (d.month - 1) / 12 == 0 && (d.month - 1) % 12 == d.month - 1;
    var leap := IsLeap(d.year);
    var inYear := DaysBefore(d.month - 1, leap) + d.day - 1;
    MonthEnds(d.month, leap);
    DaysBeforeMonotone(d.month, 12, leap);
    DaysBeforeMonotone(0, d.month - 1, leap);
    YearEnds(leap);
    YearLength(d.year);
    YearUnique(ToDay(d), d.year);
    var m := MonthFrom(inYear, leap, 0);
    if m < d.month - 1 { DaysBeforeMonotone(m + 1, d.month - 1, leap); }
    if d.month - 1 < m { DaysBeforeMonotone(d.month, m, leap); }
  }

  predicate Before(a: Date, b: Date) {
    a.year < b.year || (a.year == b.year && (a.month < b.month || (a.month == b.month && a.day < b.day)))
  }

  /** Later days have later dates. */
  lemma DayOrder(a: int, b: int)
    ensures a < b <==> Before(FromDay(a), FromDay(b))
  {
    hide FromDay;
    if Before(FromDay(a), FromDay(b)) { DateDays(a, b); }
    if Before(FromDay(b), FromDay(a)) { DateDays(b, a); }
    if FromDay(a) == FromDay(b) { DayDateDay(a); DayDateDay(b); }
  }

  lemma DateDays(a: int, b: int)
    requires Before(FromDay(a), FromDay(b))
    ensures a < b
  {
    hide DayFromYear, YearFromDay, MonthFrom, DaysBefore, IsLeap;
    var x, y := FromDay(a), FromDay(b);
    if x.year < y.year {
      DayFromYearMonotone(x.year + 1, y.year);
    } else if x.month < y.month {
      DaysBeforeMonotone(x.month, y.month - 1, IsLeap(x.year));
    }
  }

  /** 0 is Sunday; day 0 was a Thursday. */
  function WeekDay(n: int): (w: int)
    ensures 0 <= w < 7
  {
    (n + 4) % 7
  }

  // ---------------------------------------------------------------- fixed points of the calendar

  lemma MonthTable(y: int)
    ensures DaysInMonth(y, 1) == 31 && DaysInMonth(y, 3) == 31 && DaysInMonth(y, 4) == 30 && DaysInMonth(y, 5) == 31
    ensures DaysInMonth(y, 6) == 30 && DaysInMonth(y, 7) == 31 && DaysInMonth(y, 8) == 31 && DaysInMonth(y, 9) == 30
    ensures DaysInMonth(y, 10) == 31 && DaysInMonth(y, 11) == 30 && DaysInMonth(y, 12) == 31
    ensures DaysInMonth(y, 2) == if y % 4 == 0 && (y % 100 != 0 || y % 400 == 0) then 29 else 28
  {
  }

  lemma NextInDays(d: Date, e: Date)
    requires ValidDate(d)
    requires e == if d.day < DaysInMonth(d.year, d.month) then Date(d.year, d.month, d.day + 1)
                  else if d.month < 12 then Date(d.year, d.month + 1, 1)
                  else Date(d.year + 1, 1, 1)
    ensures ValidDate(e) && ToDay(e) == ToDay(d) + 1
  {
    hide DayFromYear, IsLeap, MonthLength, DaysBefore, ToDay;
    var leap := IsLeap(d.year);
    MonthEnds(d.month, leap);
    YearEnds(leap);
    YearEnds(IsLeap(d.year + 1));
    YearLength(d.year);
    FirstIsValid(e.year, e.month);
    DayNumber(d);
    DayNumber(e);
  }

  /** The day after a date is the next date of its month, or the first of the next month or year. */
  lemma NextDay(n: int)
    ensures var (d, e) := (FromDay(n), FromDay(n + 1));
            e == if d.day < DaysInMonth(d.year, d.month) then Date(d.year, d.month, d.day + 1)
                 else if d.month < 12 then Date(d.year, d.month + 1, 1)
                 else Date(d.year + 1, 1, 1)
  {
    hide FromDay, ToDay, DaysInMonth;
    var d := FromDay(n);
    var e := if d.day < DaysInMonth(d.year, d.month) then Date(d.year, d.month, d.day + 1)
             else if d.month < 12 then Date(d.year, d.month + 1, 1)
             else Date(d.year + 1, 1, 1);
    DayDateDay(n);
    NextInDays(d, e);
    DateDayDate(e);
  }

  lemma FirstIsValid(y: int, m: int)
    ensures DaysInMonth(y, m) >= 28
  {
  }

  lemma DayNumber(d: Date)
    requires 1 <= d.month <= 12
    ensures ToDay(d) == DayFromYear(d.year) + DaysBefore(d.month - 1, IsLeap(d.year)) + d.day - 1
  {
    hide DayFromYear, DaysBefore, IsLeap;
    assert (d.month - 1) / 12 == 0 && (d.month - 1) % 12 == d.month - 1;
  }

  /** Day 0 is 1970-01-01, a Thursday, and weekdays follow each other. */
  lemma DayZero(n: int)
    ensures FromDay(0) == Date(1970, 1, 1) && WeekDay(0) == 4
    ensures WeekDay(n + 1) == if WeekDay(n) == 6 then 0 else WeekDay(n) + 1
  {
    var d := Date(1970, 1, 1);
    assert DayFromYear(1970) == 0;
    DayNumber(d);
    DateDayDate(d);
    WeekDayNext(n);
  }

  lemma WeekDayNext(n: int)
    ensures WeekDay(n + 1) == if WeekDay(n) == 6 then 0 else WeekDay(n) + 1
  {
  }
}
