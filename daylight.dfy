/**
 * Daylight-saving rules of a user profile (`DayInYear` and
 * `DaylightShiftRules` in `UserProfile`). A day in the year is a signed
 * byte and a month. Read as an absolute date it is a day of the month.
 * Read as a relative date, the day modulo 7 is a weekday (Monday = 0) and
 * the quotient says which occurrence of that weekday in the month is meant,
 * a negative day meaning the last one. The Gregorian calendar that .NET
 * supplies is written out here: days per month and the day of the week.
 */
module Daylight {
  import opened Common
  import opened Language

  newtype sbyte = x: int | -128 <= x < 128

  /** Months as the enum stores them, January = 1. */
  predicate ValidMonth(m: int) { 1 <= m <= 12 }

  /** The years a .NET `DateTime` can hold. */
  predicate ValidYear(y: int) { 1 <= y <= 9999 }

  const MARCH := 3
  const APRIL := 4
  const OCTOBER := 10
  const NOVEMBER := 11

  /** Weekdays as the enum stores them, Monday = 0 through Sunday = 6. */
  const SUNDAY := 6

  // ---------------------------------------------------------------------------
  // The calendar
  // ---------------------------------------------------------------------------

  predicate IsLeapYear(y: int) { y % 4 == 0 && (y % 100 != 0 || y % 400 == 0) }

  /** `Calendar.GetDaysInMonth`. */
  function DaysInMonth(y: int, m: int): (n: int)
    requires ValidMonth(m)
    ensures 28 <= n <= 31
    ensures n == 29 <==> m == 2 && IsLeapYear(y)
  {
    if m == 2 then (if IsLeapYear(y) then 29 else 28)
    else if m == 4 || m == 6 || m == 9 || m == 11 then 30
    else 31
  }

  /** How far each month's days are shifted in the week, for a year that
      starts in March. */
  function MonthShift(m: int): int
    requires ValidMonth(m)
  {
    [0, 3, 2, 5, 0, 3, 5, 1, 4, 6, 2, 4][m - 1]
  }

  /** Days of the week a year begun in March has moved on, counting a day
      for each year and one more for each leap day before it. */
  function YearShift(y: int): int
  {
    y + y / 4 - y / 100 + y / 400
  }

  /** The shift of a month's days in the week, counting January and
      February with the year before. */
  function MonthKey(y: int, m: int): int
    requires ValidMonth(m)
  {
    YearShift(if m < 3 then y - 1 else y) + MonthShift(m)
  }

  /** `Calendar.GetDayOfWeek` as a `DayOfWeek` value, Sunday = 0. */
  function DayOfWeek(y: int, m: int, d: int): (w: int)
    requires ValidMonth(m)
    ensures 0 <= w < 7
  {
    (MonthKey(y, m) + d) % 7
  }

  /** From one year to the next the shift grows by one, and by one more when
      the later year is a leap year. */
  lemma YearShiftStep(y: int)
    ensures YearShift(y) - YearShift(y - 1) == if IsLeapYear(y) then 2 else 1
  {
    QuotientSteps(y);
    DivisorsOfHundreds(y);
  }

  /** Each quotient grows by one exactly at the multiples of its divisor. */
  lemma QuotientSteps(y: int)
    ensures y / 4 - (y - 1) / 4 == if y % 4 == 0 then 1 else 0
    ensures y / 100 - (y - 1) / 100 == if y % 100 == 0 then 1 else 0
    ensures y / 400 - (y - 1) / 400 == if y % 400 == 0 then 1 else 0
  {
  }

  /** A multiple of 400 is one of 100, and one of 100 is one of 4. */
  lemma DivisorsOfHundreds(y: int)
    ensures y % 400 == 0 ==> y % 100 == 0
    ensures y % 100 == 0 ==> y % 4 == 0
  {
  }

  /** The weekday table agrees with the month lengths: the first of each
      month falls the day after the last of the month before. */
  lemma NextMonthStarts(y: int, m: int)
    requires ValidMonth(m)
    ensures m < 12 ==> DayOfWeek(y, m + 1, 1) == (DayOfWeek(y, m, DaysInMonth(y, m)) + 1) % 7
    ensures m == 12 ==> DayOfWeek(y + 1, 1, 1) == (DayOfWeek(y, 12, 31) + 1) % 7
  {
    var k := MonthKey(y, m) + DaysInMonth(y, m);
    var next := if m < 12 then MonthKey(y, m + 1) else MonthKey(y + 1, 1);
    MonthKeyStep(y, m);
    ModAdd(k, 1);
    ModWeeks(next + 1, k - next);
  }

  /** A month's key and its length add up to the next month's key, up to
      whole weeks. */
  lemma MonthKeyStep(y: int, m: int)
    requires ValidMonth(m)
    ensures var next := if m < 12 then MonthKey(y, m + 1) else MonthKey(y + 1, 1);
            var gap := MonthKey(y, m) + DaysInMonth(y, m) - next;
            gap == 28 || gap == 35
  {
    if m == 2 {
      YearShiftStep(y);
    }
  }

  // ---------------------------------------------------------------------------
  // Days in the year
  // ---------------------------------------------------------------------------

  datatype DayInYear = DayInYear(day: sbyte, month: int)

  /** C#'s truncating `x % 7`, with 7 added when it is negative: the
      remainder modulo 7. */
  function NonNegativeRem(x: int): (r: int)
    ensures r == x % 7
  {
    var t := TruncRem(x, 7);
    assert x == TruncDiv(x, 7) * 7 + t;
    if t < 0 then t + 7 else t
  }

  /** `RelativeWeekday`: the day modulo 7, made non-negative after C#'s
      truncating `%`. */
  function RelativeWeekday(d: DayInYear): (w: int)
    ensures 0 <= w < 7
    ensures w == (d.day as int) % 7
  {
    NonNegativeRem(d.day as int)
  }

  /** `WeekdayCount`: which occurrence of the weekday, counted from 0, and -1
      ("the last") for a negative day. */
  function WeekdayCount(d: DayInYear): (c: int)
    ensures d.day < 0 <==> c == -1
    ensures d.day >= 0 ==> 7 * c <= d.day as int < 7 * c + 7
  {
    if d.day < 0 then -1 else d.day as int / 7
  }

  /** A relative day names one weekday and one occurrence: both come back
      out of the day that encodes them. */
  lemma RelativeRoundTrip(weekday: int, count: int, month: int)
    requires 0 <= weekday < 7 && -1 <= count <= 17
    ensures var d := DayInYear((weekday + 7 * count) as sbyte, month);
            RelativeWeekday(d) == weekday && WeekdayCount(d) == count
  {
  }

  /** `DayInYear.FromDateTime`: the day and the month of a date. */
  function FromDateTime(year: int, month: int, day: int): (r: DayInYear)
    requires ValidMonth(month) && 1 <= day <= DaysInMonth(year, month)
    ensures r.day as int == day && r.month == month
    ensures r.day >= 0 && WeekdayCount(r) == (day - 1) / 7 + (if day % 7 == 0 then 1 else 0)
  {
    DayInYear(day as sbyte, month)
  }

  // ---------------------------------------------------------------------------
  // Text
  // ---------------------------------------------------------------------------

  /** The name of a month as the enum prints it; a value outside the enum
      prints as its number. */
  function MonthName(m: int): (r: string)
    ensures |r| > 0
  {
    if ValidMonth(m) then
      ["January", "February", "March", "April", "May", "June", "July",
       "August", "September", "October", "November", "December"][m - 1]
    else IntToString(m)
  }

  function WeekdayName(w: int): (r: string)
    requires 0 <= w < 7
    ensures |r| > 0
  {
    ["Monday", "Tuesday", "Wednesday", "Thursday", "Friday", "Saturday", "Sunday"][w]
  }

  /** `DayInYear.ToString(isAbsolute)`: "{ordinal} of {Month}", or
      "{last | ordinal} {Weekday} of {Month}" for a relative day. */
  function DayToString(d: DayInYear, isAbsolute: bool): (r: string)
    ensures var tail := " of " + MonthName(d.month);
            && EndsWith(r, tail)
            && (isAbsolute ==> r == Ordinal(d.day as int) + tail)
            && (!isAbsolute && d.day < 0 ==> r == "last " + WeekdayName((d.day as int) % 7) + tail)
            && (!isAbsolute && d.day >= 0 ==>
                  r == Ordinal(d.day as int / 7 + 1) + " " + WeekdayName((d.day as int) % 7) + tail)
  {
    var tail := " of " + MonthName(d.month);
    var c := WeekdayCount(d);
    var head := if isAbsolute then Ordinal(d.day as int)
                else (if c < 0 then "last" else Ordinal(c + 1)) + " " + WeekdayName(RelativeWeekday(d));
    EndsWithAppended(head, tail);
    head + tail
  }

  lemma EndsWithAppended(head: string, tail: string)
    ensures EndsWith(head + tail, tail)
  {
    assert (head + tail)[|head|..] == tail;
  }

  // ---------------------------------------------------------------------------
  // The threshold day of a relative rule
  // ---------------------------------------------------------------------------

  /** The weekday (Monday = 0) that a day of a month falls on. */
  function WeekdayOn(y: int, m: int, day: int): (w: int)
    requires ValidMonth(m)
    ensures 0 <= w < 7
  {
    (DayOfWeek(y, m, day) + 6) % 7
  }

  /** Reducing a summand modulo 7 first does not change the sum modulo 7. */
  lemma ModAdd(a: int, b: int)
    ensures (a % 7 + b) % 7 == (a + b) % 7
  {
    var q := a / 7;
    assert a == 7 * q + a % 7;
    assert a % 7 + b == (a + b) - 7 * q;
  }

  /** Adding whole weeks does not change the weekday. */
  lemma ModWeeks(a: int, gap: int)
    requires gap == 28 || gap == 35
    ensures (a + gap) % 7 == a % 7
  {
  }

  /** Each day falls one weekday after the one before. */
  lemma WeekdayAdvances(y: int, m: int, day: int)
    requires ValidMonth(m)
    ensures WeekdayOn(y, m, day) == (WeekdayOn(y, m, 1) + day - 1) % 7
  {
    var k := MonthKey(y, m);
    assert DayOfWeek(y, m, day) == (k + day) % 7;
    assert DayOfWeek(y, m, 1) == (k + 1) % 7;
    ModAdd(k + day, 6);
    ModAdd(k + 1, 6);
    ModAdd(k + 7, day - 1);
  }

  /** `monthStartWeekday`: the weekday of the first of the month, Monday = 0,
      computed as `(DayOfWeek - 1) % 7` with C#'s truncating `%`, so a month
      that starts on a Sunday gives -1. */
  function MonthStartWeekday(y: int, m: int): (s: int)
    requires ValidMonth(m)
    ensures s == WeekdayOn(y, m, 1) || (s == -1 && WeekdayOn(y, m, 1) == SUNDAY)
  {
    var dow := DayOfWeek(y, m, 1);
    SmallTruncRem(dow - 1);
    TruncRem(dow - 1, 7)
  }

  /** A number between -7 and 7 is its own truncated remainder by 7. */
  lemma SmallTruncRem(a: int)
    requires -7 < a < 7
    ensures TruncRem(a, 7) == a
  {
    assert Abs(a) / 7 == 0;
  }

  /** `weekdayDiff` as written: the start weekday minus the wanted weekday,
      brought into 0..6. */
  function WeekdayDiff(y: int, m: int, d: DayInYear): (r: int)
    requires ValidMonth(m)
    ensures 0 <= r < 7
    ensures r == (WeekdayOn(y, m, 1) - RelativeWeekday(d)) % 7
  {
    var s := MonthStartWeekday(y, m);
    StartWeekdayMod(s, WeekdayOn(y, m, 1), -RelativeWeekday(d), 1);
    NonNegativeRem(s - RelativeWeekday(d))
  }

  /** `weekdayDiff` as evidently intended: how many days after the first of
      the month the wanted weekday first comes. */
  function WeekdayDiffFixed(y: int, m: int, d: DayInYear): (r: int)
    requires ValidMonth(m)
    ensures 0 <= r < 7
    ensures r == (RelativeWeekday(d) - WeekdayOn(y, m, 1)) % 7
  {
    var s := MonthStartWeekday(y, m);
    StartWeekdayMod(s, WeekdayOn(y, m, 1), RelativeWeekday(d), -1);
    NonNegativeRem(RelativeWeekday(d) - s)
  }

  /** The start weekday -1 for Sunday counts like 6 modulo 7. */
  lemma StartWeekdayMod(s: int, w: int, x: int, sign: int)
    requires s == w || (s == -1 && w == 6)
    requires sign == 1 || sign == -1
    ensures (x + sign * s) % 7 == (x + sign * w) % 7
  {
    if s != w {
      if sign == 1 {
        AddWeeks(x + s, 1);
      } else {
        AddWeeks(x - w, 1);
      }
    }
  }

  /** Where the empty `for` loop stops: it steps a week at a time from `t`
      while a whole week still fits before `maxDay`. */
  function LastStep(t: int, maxDay: int): (r: int)
    decreases maxDay - t
  {
    if t <= maxDay - 7 then LastStep(t + 7, maxDay) else t
  }

  /** Adding whole weeks does not change the remainder modulo 7. */
  lemma AddWeeks(a: int, k: int)
    ensures (a + 7 * k) % 7 == a % 7
  {
    assert a + 7 * k == 7 * (a / 7 + k) + a % 7;
  }

  /** Numbers with the same remainder modulo 7 keep it after adding `c`. */
  lemma CongruentSum(a: int, b: int, c: int)
    requires a % 7 == b % 7
    ensures (a + c) % 7 == (b + c) % 7
  {
    ModAdd(a, c);
    ModAdd(b, c);
  }

  /** The loop ends on a day of the same weekday as `t`, in the last week of
      the month (or at `t` itself when that is later). */
  lemma {:induction false} LastStepBounds(t: int, maxDay: int)
    ensures LastStep(t, maxDay) % 7 == t % 7
    ensures t <= LastStep(t, maxDay) && maxDay - 7 < LastStep(t, maxDay)
    ensures t <= maxDay ==> LastStep(t, maxDay) <= maxDay
    decreases maxDay - t
  {
    if t <= maxDay - 7 {
      LastStepBounds(t + 7, maxDay);
      AddWeeks(t, 1);
    }
  }

  /** The threshold day for a given `weekdayDiff`: the last occurrence for a
      negative day, otherwise `weekdayDiff + 7 * WeekdayCount + 1`. */
  function ThresholdFrom(d: DayInYear, diff: int, maxDay: int): int
  {
    if d.day < 0 then LastStep(diff + 1, maxDay)
    else diff + 7 * WeekdayCount(d) + 1
  }

  /** Whatever the difference in 0..6, the threshold day is `diff + 1` plus
      whole weeks: in the last week of the month for a negative day, else in
      week `WeekdayCount`. */
  lemma ThresholdFromBounds(d: DayInYear, diff: int, maxDay: int)
    requires 0 <= diff < 7 && maxDay >= 7
    ensures ThresholdFrom(d, diff, maxDay) % 7 == (diff + 1) % 7
    ensures d.day < 0 ==> maxDay - 7 < ThresholdFrom(d, diff, maxDay) <= maxDay
    ensures d.day >= 0 ==>
              7 * WeekdayCount(d) < ThresholdFrom(d, diff, maxDay) <= 7 * WeekdayCount(d) + 7
  {
    if d.day < 0 {
      LastStepBounds(diff + 1, maxDay);
    } else {
      AddWeeks(diff + 1, WeekdayCount(d));
    }
  }

  /** `GetThresholdDay` as written. */
  function ThresholdDay(d: DayInYear, y: int): int
    requires ValidMonth(d.month)
  {
    ThresholdFrom(d, WeekdayDiff(y, d.month, d), DaysInMonth(y, d.month))
  }

  /** `GetThresholdDay` with the subtraction the right way round. */
  function ThresholdDayFixed(d: DayInYear, y: int): int
    requires ValidMonth(d.month)
  {
    ThresholdFrom(d, WeekdayDiffFixed(y, d.month, d), DaysInMonth(y, d.month))
  }

  /** `GetThresholdDay`, with its empty `for` loop for "the last" weekday.
      The month and the year must make a valid `DateTime`. The day found
      is `weekdayDiff + 1` plus whole weeks, in the last week of the month
      for a negative day and in week `WeekdayCount` otherwise. */
  method GetThresholdDay(d: DayInYear, year: int) returns (thresholdDay: int)
    requires ValidMonth(d.month) && ValidYear(year)
    ensures thresholdDay == ThresholdDay(d, year)
    ensures thresholdDay % 7 == (WeekdayDiff(year, d.month, d) + 1) % 7
    ensures d.day < 0 ==> DaysInMonth(year, d.month) - 7 < thresholdDay <= DaysInMonth(year, d.month)
    ensures d.day >= 0 ==> 7 * WeekdayCount(d) < thresholdDay <= 7 * WeekdayCount(d) + 7
  {
    var monthStartWeekday := TruncRem(DayOfWeek(year, d.month, 1) - 1, 7);
    assert monthStartWeekday == MonthStartWeekday(year, d.month);
    var weekdayDiff := TruncRem(monthStartWeekday - RelativeWeekday(d), 7);
    if weekdayDiff < 0 {
      weekdayDiff := weekdayDiff + 7;
    }
    assert weekdayDiff == WeekdayDiff(year, d.month, d);
    if d.day < 0 {
      var maxDay := DaysInMonth(year, d.month);
      thresholdDay := weekdayDiff + 1;
      while thresholdDay <= maxDay - 7
        invariant LastStep(thresholdDay, maxDay) == LastStep(weekdayDiff + 1, maxDay)
        decreases maxDay - thresholdDay
      {
        thresholdDay := thresholdDay + 7;
      }
    } else {
      thresholdDay := weekdayDiff + 7 * WeekdayCount(d) + 1;
    }
    ThresholdFromBounds(d, weekdayDiff, DaysInMonth(year, d.month));
  }

  /** The weekday of day `t` when `t` is `diff + 1` plus whole weeks. */
  lemma WeekdayOfThreshold(y: int, m: int, t: int, diff: int)
    requires ValidMonth(m)
    requires t % 7 == (diff + 1) % 7
    ensures WeekdayOn(y, m, t) == (WeekdayOn(y, m, 1) + diff) % 7
  {
    WeekdayAdvances(y, m, t);
    CongruentSum(t, diff + 1, WeekdayOn(y, m, 1) - 1);
  }

  /** With the corrected difference, the threshold day falls on the wanted
      weekday, and it is the wanted occurrence: the last one in the month
      for a negative day, else occurrence `WeekdayCount + 1`. */
  lemma ThresholdFixedIsWanted(d: DayInYear, y: int)
    requires ValidMonth(d.month)
    ensures WeekdayOn(y, d.month, ThresholdDayFixed(d, y)) == RelativeWeekday(d)
    ensures var maxDay := DaysInMonth(y, d.month);
            d.day < 0 ==> maxDay - 7 < ThresholdDayFixed(d, y) <= maxDay
    ensures d.day >= 0 ==>
              7 * WeekdayCount(d) < ThresholdDayFixed(d, y) <= 7 * WeekdayCount(d) + 7
  {
    var diff := WeekdayDiffFixed(y, d.month, d);
    ThresholdFromBounds(d, diff, DaysInMonth(y, d.month));
    WeekdayOfThreshold(y, d.month, ThresholdDayFixed(d, y), diff);
    FixedDiffArrives(WeekdayOn(y, d.month, 1), RelativeWeekday(d), diff);
  }

  /** As written, the threshold day falls on the wanted weekday exactly when
      the month starts on that weekday. */
  lemma ThresholdAsWrittenWeekday(d: DayInYear, y: int)
    requires ValidMonth(d.month)
    ensures WeekdayOn(y, d.month, ThresholdDay(d, y)) == RelativeWeekday(d)
            <==> WeekdayOn(y, d.month, 1) == RelativeWeekday(d)
  {
    var diff := WeekdayDiff(y, d.month, d);
    ThresholdFromBounds(d, diff, DaysInMonth(y, d.month));
    WeekdayOfThreshold(y, d.month, ThresholdDay(d, y), diff);
    ReversedDiffArrives(WeekdayOn(y, d.month, 1), RelativeWeekday(d), diff);
  }

  /** Stepping from the start weekday by `wanted - start`, modulo 7, lands on
      the wanted weekday. */
  lemma FixedDiffArrives(start: int, wanted: int, diff: int)
    requires 0 <= start < 7 && 0 <= wanted < 7
    requires diff == (wanted - start) % 7
    ensures (start + diff) % 7 == wanted
  {
    if wanted >= start {
      assert diff == wanted - start;
    } else {
      assert diff == wanted - start + 7;
    }
  }

  /** Stepping by `start - wanted` instead lands on the wanted weekday only
      when there was no step to take. */
  lemma ReversedDiffArrives(start: int, wanted: int, diff: int)
    requires 0 <= start < 7 && 0 <= wanted < 7
    requires diff == (start - wanted) % 7
    ensures (start + diff) % 7 == wanted <==> start == wanted
  {
    if start >= wanted {
      assert diff == start - wanted;
    } else {
      assert diff == start - wanted + 7;
    }
  }

  /** March 2024 starts on a Friday; the 27th is a Wednesday and the 31st a
      Sunday. */
  lemma March2024()
    ensures WeekdayOn(2024, MARCH, 1) == 4
    ensures WeekdayOn(2024, MARCH, 27) == 2 && WeekdayOn(2024, MARCH, 31) == SUNDAY
  {
    assert MonthKey(2024, MARCH) == 2517;
    assert DayOfWeek(2024, MARCH, 1) == 5;
    assert DayOfWeek(2024, MARCH, 27) == 3;
    assert DayOfWeek(2024, MARCH, 31) == 0;
  }

  /** The European start of 2024, the last Sunday of March: March 2024
      starts on a Friday, so the rule as written picks Wednesday the 27th
      where the last Sunday is the 31st. */
  lemma EuropeanStart2024()
    ensures ThresholdDay(DayInYear((SUNDAY - 7) as sbyte, MARCH), 2024) == 27
    ensures ThresholdDayFixed(DayInYear((SUNDAY - 7) as sbyte, MARCH), 2024) == 31
    ensures WeekdayOn(2024, MARCH, 27) == 2 && WeekdayOn(2024, MARCH, 31) == SUNDAY
  {
    March2024();
    var d := DayInYear((SUNDAY - 7) as sbyte, MARCH);
    assert RelativeWeekday(d) == SUNDAY;
    assert WeekdayDiff(2024, MARCH, d) == 5 by {
      assert (4 - SUNDAY) % 7 == 5;
    }
    assert LastStep(6, 31) == 27 by {
      assert LastStep(6, 31) == LastStep(13, 31) == LastStep(20, 31) == LastStep(27, 31);
    }
    assert WeekdayDiffFixed(2024, MARCH, d) == 2 by {
      assert (SUNDAY - 4) % 7 == 2;
    }
    assert LastStep(3, 31) == 31 by {
      assert LastStep(3, 31) == LastStep(10, 31) == LastStep(17, 31) == LastStep(24, 31) == LastStep(31, 31);
    }
  }

  // ---------------------------------------------------------------------------
  // Shift rules
  // ---------------------------------------------------------------------------

  /** `DaylightShiftRules`; a missing endpoint is a null reference. */
  datatype DaylightShiftRules = DaylightShiftRules(isAbsolute: bool, starts: Option<DayInYear>, ends: Option<DayInYear>)

  /** A concatenation starts with its first part and ends with its last. */
  lemma ConcatEnds(x: string, y: string)
    ensures StartsWith(x + y, x) && EndsWith(x + y, y)
  {
    assert (x + y)[..|x|] == x;
    assert (x + y)[|x + y| - |y|..] == y;
  }

  /** `DaylightShiftRules.ToString`. */
  function RulesToString(rules: DaylightShiftRules): (r: string)
    ensures r == "Undefined" <==> rules.starts.None? || rules.ends.None?
    ensures rules.starts.Some? && rules.ends.Some? ==>
              && StartsWith(r, "From the " + DayToString(rules.starts.value, rules.isAbsolute) + " to the ")
              && EndsWith(r, " to the " + DayToString(rules.ends.value, rules.isAbsolute) + ".")
              && |r| == |"From the  to the ."| + |DayToString(rules.starts.value, rules.isAbsolute)|
                                            + |DayToString(rules.ends.value, rules.isAbsolute)|
  {
    if rules.starts.None? || rules.ends.None? then "Undefined"
    else
      var start := DayToString(rules.starts.value, rules.isAbsolute);
      var end := DayToString(rules.ends.value, rules.isAbsolute);
      var head := "From the " + start + " to the ";
      var tail := " to the " + end + ".";
      ConcatEnds(head, end + ".");
      ConcatEnds("From the " + start, tail);
      AppendAssoc(head, end, ".");
      AppendAssoc("From the " + start, " to the " + end, ".");
      AppendAssoc("From the " + start, " to the ", end);
      assert (head + (end + "."))[0] == 'F';
      head + (end + ".")
  }

  /** The test on the first month of the period: strictly after the start
      day, read as absolute or as a threshold. */
  function AfterStart(rules: DaylightShiftRules, day: DayInYear, year: int): bool
    requires rules.starts.Some? && ValidMonth(rules.starts.value.month)
  {
    if rules.isAbsolute then day.day > rules.starts.value.day
    else day.day as int > ThresholdDayFixed(rules.starts.value, year)
  }

  /** The test on the last month of the period: up to and including the end
      day. */
  function UntilEnd(rules: DaylightShiftRules, day: DayInYear, year: int): bool
    requires rules.ends.Some? && ValidMonth(rules.ends.value.month)
  {
    if rules.isAbsolute then day.day <= rules.ends.value.day
    else day.day as int <= ThresholdDayFixed(rules.ends.value, year)
  }

  /** The months from `from` forward to `to`, round the year. */
  function MonthsAfter(from: int, to: int): (r: int)
    ensures 0 <= r < 12
    ensures ValidMonth(from) && ValidMonth(to) ==> r == if from <= to then to - from else to - from + 12
  {
    (to - from) % 12
  }

  /** `IsDST(DayInYear, int)`: the end month is moved a year on when it comes
      before the start month, and the month of the day with it when that too
      comes before the start month. Months strictly inside are in daylight
      time; the start month tests the day against the start, and the end
      month against the end. Relative days use the corrected threshold.
      Missing endpoints throw. */
  function IsDST(rules: DaylightShiftRules, day: DayInYear, year: int): (r: Outcome<bool>)
    requires ValidMonth(day.month)
    requires rules.starts.Some? ==> ValidMonth(rules.starts.value.month)
    requires rules.ends.Some? ==> ValidMonth(rules.ends.value.month)
    ensures r.Thrown? <==> rules.starts.None? || rules.ends.None?
    ensures r.Thrown? ==> r.exception == "NullReferenceException"
    ensures rules.starts.Some? && rules.ends.Some? ==>
              var a := MonthsAfter(rules.starts.value.month, day.month);
              var b := MonthsAfter(rules.starts.value.month, rules.ends.value.month);
              && (0 < a < b ==> r == Ok(true))
              && (a == 0 ==> r == Ok(AfterStart(rules, day, year)))
              && (0 < a == b ==> r == Ok(UntilEnd(rules, day, year)))
              && (b < a ==> r == Ok(false))
  {
    if rules.starts.None? || rules.ends.None? then Thrown("NullReferenceException")
    else
      var monthmin := rules.starts.value.month;
      var wraps := rules.ends.value.month < monthmin;
      var monthmax := if wraps then rules.ends.value.month + 12 else rules.ends.value.month;
      var month := if wraps && day.month < monthmin then day.month + 12 else day.month;
      if month > monthmin && month < monthmax then Ok(true)
      else if month == monthmin then Ok(AfterStart(rules, day, year))
      else if month == monthmax then Ok(UntilEnd(rules, day, year))
      else Ok(false)
  }

  /** A day in a month strictly between the start and end months, counted
      round the year, is in daylight time; a day in a month outside them is
      not. */
  lemma MonthsInside(rules: DaylightShiftRules, day: DayInYear, year: int)
    requires rules.starts.Some? && rules.ends.Some?
    requires ValidMonth(day.month) && ValidMonth(rules.starts.value.month) && ValidMonth(rules.ends.value.month)
    ensures var s := rules.starts.value.month;
            var e := rules.ends.value.month;
            var m := day.month;
            && (s < e ==> (s < m < e ==> IsDST(rules, day, year) == Ok(true)))
            && (s < e ==> (m < s || e < m ==> IsDST(rules, day, year) == Ok(false)))
            && (e < s ==> (m < e || s < m ==> IsDST(rules, day, year) == Ok(true)))
            && (e < s ==> (e < m < s ==> IsDST(rules, day, year) == Ok(false)))
  {
  }

  /** `PresetRules`: the American, European and Australian rules. */
  function PresetRules(): (presets: map<string, DaylightShiftRules>)
    ensures presets.Keys == {"American", "European", "Australian"}
    ensures forall k | k in presets :: !presets[k].isAbsolute
    ensures forall k | k in presets ::
              && presets[k].starts.Some? && presets[k].ends.Some?
              && RelativeWeekday(presets[k].starts.value) == SUNDAY
              && RelativeWeekday(presets[k].ends.value) == SUNDAY
  {
    map[
      "American" := DaylightShiftRules(false, Some(DayInYear((SUNDAY + 1 * 7) as sbyte, MARCH)),
                                       Some(DayInYear(SUNDAY as sbyte, NOVEMBER))),
      "European" := DaylightShiftRules(false, Some(DayInYear((SUNDAY - 7) as sbyte, MARCH)),
                                       Some(DayInYear((SUNDAY - 7) as sbyte, OCTOBER))),
      "Australian" := DaylightShiftRules(false, Some(DayInYear(SUNDAY as sbyte, OCTOBER)),
                                         Some(DayInYear(SUNDAY as sbyte, APRIL)))
    ]
  }

  /** The presets name the occurrences they are known by: the American
      period runs from the second Sunday of March to the first of November,
      the European from the last Sunday of March to the last of October, the
      Australian from the first Sunday of October to the first of April. */
  lemma PresetOccurrences()
    ensures var american := PresetRules()["American"];
            && WeekdayCount(american.starts.value) == 1 && american.starts.value.month == MARCH
            && WeekdayCount(american.ends.value) == 0 && american.ends.value.month == NOVEMBER
    ensures var european := PresetRules()["European"];
            && WeekdayCount(european.starts.value) == -1 && european.starts.value.month == MARCH
            && WeekdayCount(european.ends.value) == -1 && european.ends.value.month == OCTOBER
    ensures var australian := PresetRules()["Australian"];
            && WeekdayCount(australian.starts.value) == 0 && australian.starts.value.month == OCTOBER
            && WeekdayCount(australian.ends.value) == 0 && australian.ends.value.month == APRIL
  {
  }
}
