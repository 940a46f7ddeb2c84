/**
 Calendar windows over YYYY-MM-DD text, and the events they show
 (src/ai/lois-calendar-range.ts, src/ai/ai-school-query.service.ts).
 */
module CalendarWindow {
  import opened Prelude
  import opened Decimals
  import opened CivilDate

  // ---------------------------------------------------------------- dates as text

  /** `/^\d{4}-\d{2}-\d{2}$/` */
  predicate IsYmd(s: string) {
    && |s| == 10 && s[4] == '-' && s[7] == '-'
    && forall i :: 0 <= i < 10 && i != 4 && i != 7 ==> IsDigit(s[i])
  }

  /** `ymd.split('-').map(Number)` */
  function ParseYmd(s: string): (nat, nat, nat)
    requires IsYmd(s)
  {
    (NumberOf(s[..4]), NumberOf(s[5..7]), NumberOf(s[8..]))
  }

  /** The year as it is, month and day padded to two digits. */
  function FormatYmd(d: Date): string
    requires ValidDate(d)
  {
    Signed(d.year) + "-" + PadStart(Decimal(d.month), 2) + "-" + PadStart(Decimal(d.day), 2)
  }

  /** Times beyond 100 million days from day 0 are not a date. */
  const LAST_DAY := 100000000

  /** `Date.UTC` reads a year below 100 as 19xx. */
  function UtcYear(y: nat): nat { if y <= 99 then 1900 + y else y }

  function AddDaysYmd(ymd: string, days: int): string
    requires IsYmd(ymd)
  {
    var (y, m, d) := ParseYmd(ymd);
    var n := MakeDay(UtcYear(y), m - 1, d + days);
    if -LAST_DAY <= n <= LAST_DAY then FormatYmd(FromDay(n)) else "NaN-NaN-NaN"
  }

  function MondayOfWeek(ymd: string): string
    requires IsYmd(ymd)
  {
    var (y, m, d) := ParseYmd(ymd);
    var weekDay := WeekDay(MakeDay(UtcYear(y), m - 1, d));
    AddDaysYmd(ymd, -(if weekDay == 0 then 6 else weekDay - 1))
  }

  // ---------------------------------------------------------------- the text of a day

  /** The first days of the years 0, 100, 1000 and 10000. */
  const YEAR_0 := -719528
  const YEAR_100 := -683003
  const YEAR_1000 := -354285
  const YEAR_10000 := 2932897

  lemma YearBegins(n: int, y: int)
    ensures y <= FromDay(n).year <==> DayFromYear(y) <= n
  {
    hide DayFromYear, YearFromDay, MonthFrom, DaysBefore, IsLeap;
    var z := FromDay(n).year;
    assert DayFromYear(z) <= n < DayFromYear(z + 1);
    if y <= z { DayFromYearMonotone(y, z); } else { DayFromYearMonotone(z + 1, y); }
  }

  /** The year of a day, read off the day number. */
  lemma YearRange(n: int)
    ensures 0 <= FromDay(n).year <==> YEAR_0 <= n
    ensures 100 <= FromDay(n).year <==> YEAR_100 <= n
    ensures 1000 <= FromDay(n).year <==> YEAR_1000 <= n
    ensures FromDay(n).year <= 9999 <==> n < YEAR_10000
  {
    hide FromDay;
    YearBegins(n, 0);
    YearBegins(n, 100);
    YearBegins(n, 1000);
    YearBegins(n, 10000);
  }

  /** Days of the years 0 to 9999. */
  predicate Dated(n: int) { YEAR_0 <= n < YEAR_10000 }

  /** Days of the years 1000 to 9999, whose year is printed with four digits. */
  predicate FourDigitYear(n: int) { YEAR_1000 <= n < YEAR_10000 }

  /** The day written as four, two and two digits. */
  function Ymd(n: int): (s: string)
    requires Dated(n)
  {
    YearRange(n);
    var d := FromDay(n);
    Fixed(d.year, 4) + ("-" + (Fixed(d.month, 2) + ("-" + Fixed(d.day, 2))))
  }

  lemma SmallPowers()
    ensures Pow10(1) == 10 && Pow10(2) == 100 && Pow10(3) == 1000 && Pow10(4) == 10000
  {
  }

  lemma MonthAndDayAreShort(n: int)
    ensures 1 <= FromDay(n).month <= 12 && 1 <= FromDay(n).day <= 31
  {
    var d := FromDay(n);
    assert ValidDate(d);
    MonthIsShort(d.year, d.month);
  }

  lemma MonthIsShort(y: int, m: int)
    ensures DaysInMonth(y, m) <= 31
  {
  }

  lemma YmdParses(n: int)
    requires Dated(n)
    ensures IsYmd(Ymd(n)) && ParseYmd(Ymd(n)) == (FromDay(n).year, FromDay(n).month, FromDay(n).day)
  {
    hide FromDay, ValidDate;
    YearRange(n);
    SmallPowers();
    MonthAndDayAreShort(n);
    var d, s := FromDay(n), Ymd(n);
    NumberOfFixed(d.year, 4);
    NumberOfFixed(d.month, 2);
    NumberOfFixed(d.day, 2);
    assert s[..4] == Fixed(d.year, 4) && s[5..7] == Fixed(d.month, 2) && s[8..] == Fixed(d.day, 2);
    forall i | 0 <= i < 10 && i != 4 && i != 7 ensures IsDigit(s[i]) {
      if i < 4 {
        assert s[i] == s[..4][i];
      } else if i < 7 {
        assert s[i] == s[5..7][i - 5];
      } else {
        assert s[i] == s[8..][i - 8];
      }
    }
  }

  /** The printed form is the ten-character one exactly from the year 1000 on. */
  lemma FormatIsYmd(n: int)
    requires Dated(n)
    ensures FormatYmd(FromDay(n)) == Ymd(n) <==> YEAR_1000 <= n
  {
    hide FromDay, ValidDate, Fixed, Decimal;
    YearRange(n);
    SmallPowers();
    MonthAndDayAreShort(n);
    var d := FromDay(n);
    PadTwo(d.month);
    PadTwo(d.day);
    assert ValidDate(d) by { assert ValidDate(FromDay(n)); }
    if 1000 <= d.year {
      DecimalIsFixed(d.year, 4);
      assert FormatYmd(d) == Ymd(n);
    } else {
      DecimalLength(d.year, 3);
      assert |FormatYmd(d)| < 10 && |Ymd(n)| == 10;
    }
  }

  /** Any number of days may be added: past 100 million days around day 0 the result is no date. */
  lemma AddDaysAnywhere(n: int, k: int)
    requires YEAR_100 <= n < YEAR_10000
    ensures IsYmd(Ymd(n))
    ensures AddDaysYmd(Ymd(n), k) == if -100000000 <= n + k <= 100000000 then FormatYmd(FromDay(n + k)) else "NaN-NaN-NaN"
  {
    hide FromDay, ValidDate, DayFromYear, DaysBefore, Ymd, FormatYmd, IsYmd, ParseYmd, NumberOf;
    YearRange(n);
    YmdParses(n);
    MonthAndDayAreShort(n);
    DayDateDay(n);
    var d := FromDay(n);
    assert MakeDay(d.year, d.month - 1, d.day + k) == ToDay(d) + k;
  }

  /** Any other printed form of a year from 0 on has another length. */
  lemma FormatLength(n: int)
    requires 0 <= FromDay(n).year
    ensures |FormatYmd(FromDay(n))| == 10 <==> FourDigitYear(n)
  {
    hide FromDay, ValidDate, Fixed, Decimal;
    YearRange(n);
    SmallPowers();
    MonthAndDayAreShort(n);
    var d := FromDay(n);
    assert ValidDate(d) by { assert ValidDate(FromDay(n)); }
    PadTwo(d.month);
    PadTwo(d.day);
    if d.year < 1000 {
      DecimalLength(d.year, 3);
    } else if d.year <= 9999 {
      DecimalIsFixed(d.year, 4);
    } else {
      DecimalLonger(d.year, 4);
    }
  }

  /** A year below 100 is read 1900 years later. */
  lemma ReadLater(n: int)
    requires YEAR_0 <= n < YEAR_100
    ensures var d := FromDay(n); 0 <= d.year <= 99 && MakeDay(UtcYear(d.year), d.month - 1, d.day) > n
  {
    hide FromDay, ValidDate, DayFromYear, DaysBefore, IsLeap;
    YearRange(n);
    MonthAndDayAreShort(n);
    DayDateDay(n);
    var d := FromDay(n);
    var m := d.month - 1;
    assert m / 12 == 0 && m % 12 == m;
    DayFromYearMonotone(d.year, 1900 + d.year);
    DaysBeforeMonotone(m, 12, IsLeap(d.year));
    YearEnds(IsLeap(d.year));
  }

  lemma TwoDigitYears(n: int, k: int)
    requires YEAR_0 <= n < YEAR_100 && Dated(n + k)
    ensures IsYmd(Ymd(n)) && AddDaysYmd(Ymd(n), k) != Ymd(n + k)
  {
    hide FromDay, ValidDate, DayFromYear, DaysBefore, Ymd, FormatYmd, IsYmd, ParseYmd, NumberOf;
    YmdParses(n);
    ReadLater(n);
    var d := FromDay(n);
    var m := MakeDay(UtcYear(d.year), d.month - 1, d.day);
    assert MakeDay(UtcYear(d.year), d.month - 1, d.day + k) == m + k;
    TenLong(n + k);
    if -LAST_DAY <= m + k <= LAST_DAY {
      YearRange(m + k);
      FormatLength(m + k);
      if FourDigitYear(m + k) {
        FormatIsYmd(m + k);
        TextOrderIsDayOrder(m + k, n + k);
      }
    }
  }

  lemma TenLong(n: int)
    requires Dated(n)
    ensures |Ymd(n)| == 10
  {
  }

  /**
   Adding days to a date's text is adding to its day number, exactly when the date is not before the year 100, which
   `Date.UTC` reads as 19xx, and the result is not before the year 1000, which is printed shorter.
   */
  lemma AddDaysExact(n: int, k: int)
    requires Dated(n) && Dated(n + k)
    ensures IsYmd(Ymd(n))
    ensures AddDaysYmd(Ymd(n), k) == Ymd(n + k) <==> YEAR_100 <= n && YEAR_1000 <= n + k
  {
    hide FromDay, ValidDate, Ymd, FormatYmd, IsYmd, AddDaysYmd;
    if YEAR_100 <= n {
      AddDaysAnywhere(n, k);
      FormatIsYmd(n + k);
    } else {
      TwoDigitYears(n, k);
    }
  }

  /** Adding days is additive, also across months and leap years, and undone by subtracting them. */
  lemma AddDaysAdditive(n: int, a: int, b: int)
    requires FourDigitYear(n) && FourDigitYear(n + a) && FourDigitYear(n + a + b)
    ensures IsYmd(Ymd(n)) && IsYmd(AddDaysYmd(Ymd(n), a))
    ensures AddDaysYmd(AddDaysYmd(Ymd(n), a), b) == AddDaysYmd(Ymd(n), a + b)
    ensures AddDaysYmd(AddDaysYmd(Ymd(n), a), -a) == Ymd(n)
  {
    hide AddDaysYmd, Ymd, IsYmd;
    AddDaysExact(n, a);
    AddDaysExact(n + a, b);
    AddDaysExact(n, a + b);
    AddDaysExact(n + a, -a);
    assert n + a + b == n + (a + b) && n + a + -a == n;
  }

  /** Text order on dates is day order. */
  lemma TextOrderIsDayOrder(a: int, b: int)
    requires Dated(a) && Dated(b)
    ensures TextLess(Ymd(a), Ymd(b)) <==> a < b
    ensures Ymd(a) == Ymd(b) <==> a == b
    ensures TextAtMost(Ymd(a), Ymd(b)) <==> a <= b
  {
    hide FromDay, ValidDate, Fixed;
    YearRange(a);
    YearRange(b);
    SmallPowers();
    MonthAndDayAreShort(a);
    MonthAndDayAreShort(b);
    DayOrder(a, b);
    DayOrder(b, a);
    var x, y := FromDay(a), FromDay(b);
    FixedOrder(x.year, y.year, 4);
    FixedOrder(x.month, y.month, 2);
    FixedOrder(x.day, y.day, 2);
    var xd, yd := Fixed(x.day, 2), Fixed(y.day, 2);
    var xm, ym := Fixed(x.month, 2), Fixed(y.month, 2);
    TextLessConcat("-", "-", xd, yd);
    TextLessConcat(xm, ym, "-" + xd, "-" + yd);
    TextLessConcat("-", "-", xm + ("-" + xd), ym + ("-" + yd));
    TextLessConcat(Fixed(x.year, 4), Fixed(y.year, 4), "-" + (xm + ("-" + xd)), "-" + (ym + ("-" + yd)));
    SameText(a, b);
    DayDateDay(a);
    DayDateDay(b);
  }

  lemma SameText(a: int, b: int)
    requires Dated(a) && Dated(b)
    ensures Ymd(a) == Ymd(b) ==> FromDay(a) == FromDay(b)
  {
    hide FromDay, ValidDate, Ymd, ParseYmd;
    YmdParses(a);
    YmdParses(b);
  }

  // ---------------------------------------------------------------- windows

  /** The Monday of the week that contains day `n`. */
  function Monday(n: int): (m: int)
    ensures WeekDay(m) == 1 && m <= n <= m + 6
  {
    n - (if WeekDay(n) == 0 then 6 else WeekDay(n) - 1)
  }

  /** `mondayOfWeek(todayYmd)` */
  function MondayText(n: int): string
    requires Dated(n)
  {
    YmdParses(n);
    MondayOfWeek(Ymd(n))
  }

  /** `s` is the text of day `n`. */
  ghost predicate IsTextOf(s: string, n: int) { FourDigitYear(n) && s == Ymd(n) }

  lemma MondayOfWeekIsMonday(n: int)
    requires FourDigitYear(n) && FourDigitYear(n - 6)
    ensures IsTextOf(MondayText(n), Monday(n))
  {
    hide AddDaysYmd, Ymd, FromDay, ValidDate, IsYmd, ParseYmd, DayFromYear, DaysBefore;
    YearRange(n);
    YmdParses(n);
    DayDateDay(n);
    AddDaysExact(n, Monday(n) - n);
    var d := FromDay(n);
    assert MakeDay(d.year, d.month - 1, d.day) == ToDay(d) == n;
  }

  datatype Preset = Today | ThisWeek | NextWeek | Custom

  datatype Window = Window(from: string, to: string, preset: Preset)

  predicate IsDate(s: Option<string>) { s.Some? && IsYmd(s.value) }

  /** Today with room for the week before and the two after it. */
  predicate RoomAround(n: int) { FourDigitYear(n - 6) && FourDigitYear(n + 13) }

  lemma WeekText(n: int)
    requires RoomAround(n)
    ensures FourDigitYear(n) && FourDigitYear(Monday(n) + 6) && FourDigitYear(Monday(n) + 13)
    ensures IsTextOf(MondayText(n), Monday(n)) && IsYmd(MondayText(n))
    ensures IsTextOf(AddDaysYmd(MondayText(n), 7), Monday(n) + 7) && IsYmd(AddDaysYmd(MondayText(n), 7))
  {
    hide AddDaysYmd, Ymd, IsYmd, MondayText, WeekDay, ParseYmd, FromDay;
    var m := Monday(n);
    MondayOfWeekIsMonday(n);
    AddDaysExact(m, 7);
    YmdParses(m);
    YmdParses(m + 7);
  }

  /** `resolveCalendarWindow` on day `n`, given the preset inferred from the request. */
  function ResolveCalendarWindow(preset: Option<Preset>, from: Option<string>, to: Option<string>, n: int): Window
    requires RoomAround(n) && preset != Some(Custom)
  {
    WeekText(n);
    YmdParses(n);
    var today, mon := Ymd(n), MondayText(n);
    if preset == Some(Today) then Window(today, today, Today)
    else if preset == Some(ThisWeek) || (preset.None? && !IsDate(from) && !IsDate(to)) then
      Window(mon, AddDaysYmd(mon, 6), preset.GetOr(ThisWeek))
    else if preset == Some(NextWeek) then
      var next := AddDaysYmd(mon, 7);
      Window(next, AddDaysYmd(next, 6), NextWeek)
    else
      var f := if IsDate(from) then from.value else today;
      Window(f, if IsDate(to) then to.value else AddDaysYmd(f, 7), Custom)
  }

  /** The window of the seven days from `first`. */
  ghost predicate IsWeekFrom(w: Window, first: int, preset: Preset) {
    IsTextOf(w.from, first) && IsTextOf(w.to, first + 6) && w.preset == preset
  }

  /** The two week windows: Monday to Sunday around today, and the seven days after that Sunday. */
  lemma WeekWindows(n: int, from: Option<string>, to: Option<string>)
    requires RoomAround(n)
    ensures IsWeekFrom(ResolveCalendarWindow(Some(ThisWeek), from, to, n), Monday(n), ThisWeek)
    ensures IsWeekFrom(ResolveCalendarWindow(None, None, None, n), Monday(n), ThisWeek)
    ensures IsWeekFrom(ResolveCalendarWindow(Some(NextWeek), from, to, n), Monday(n) + 7, NextWeek)
  {
    hide AddDaysYmd, Ymd, IsYmd, MondayText;
    WeekText(n);
    AddDaysExact(Monday(n), 6);
    AddDaysExact(Monday(n) + 7, 6);
  }

  /** A date's text lies between the ends of the window exactly when its day does. */
  lemma InWindowByText(x: int, first: int, last: int)
    requires FourDigitYear(x) && FourDigitYear(first) && FourDigitYear(last)
    ensures TextAtMost(Ymd(first), Ymd(x)) && TextAtMost(Ymd(x), Ymd(last)) <==> first <= x <= last
  {
    hide Ymd, TextAtMost;
    TextOrderIsDayOrder(first, x);
    TextOrderIsDayOrder(x, last);
  }

  /** The other windows: the day itself, or the given dates with today as start and a week as length where one is missing. */
  lemma OtherWindows(n: int, from: Option<string>, to: Option<string>, f: int)
    requires RoomAround(n) && FourDigitYear(f) && FourDigitYear(f + 7)
    ensures ResolveCalendarWindow(Some(Today), from, to, n) == Window(Ymd(n), Ymd(n), Today)
    ensures IsDate(from) && IsDate(to) ==> ResolveCalendarWindow(None, from, to, n) == Window(from.value, to.value, Custom)
    ensures !IsDate(from) && IsDate(to) ==> ResolveCalendarWindow(None, from, to, n) == Window(Ymd(n), to.value, Custom)
    ensures from == Some(Ymd(f)) && !IsDate(to) ==> ResolveCalendarWindow(None, from, to, n) == Window(Ymd(f), Ymd(f + 7), Custom)
  {
    hide AddDaysYmd, Ymd, IsYmd, MondayText, Monday, WeekDay, ParseYmd, FromDay;
    YmdParses(n);
    YmdParses(f);
    AddDaysExact(f, 7);
  }

  /** Any ten characters of that form are a date, whatever the digits; nothing else is. */
  lemma IsYmdExactly(s: string)
    ensures IsYmd(s) <==>
              exists y, m, d :: |y| == 4 && |m| == 2 && |d| == 2 && AllDigits(y) && AllDigits(m) && AllDigits(d)
                && s == y + "-" + m + "-" + d
  {
    if IsYmd(s) {
      var y, m, d := s[..4], s[5..7], s[8..];
      assert s == y + "-" + m + "-" + d;
      assert AllDigits(y) && AllDigits(m) && AllDigits(d);
    }
  }

  predicate AllDigits(s: string) { forall i :: 0 <= i < |s| ==> IsDigit(s[i]) }
}
