/** The proleptic Gregorian calendar on day numbers, with day 0 = 1970-01-01. */
module Calendar {
  predicate IsLeap(y: int) { y % 4 == 0 && (y % 100 != 0 || y % 400 == 0) }

  /** Day number of 1 January. */
  function YearStart(y: int): int {
    365 * (y - 1970) + (y - 1) / 4 - (y - 1) / 100 + (y - 1) / 400 - 477
  }

  lemma YearLength(y: int)
    ensures YearStart(y + 1) == YearStart(y) + if IsLeap(y) then 366 else 365
  {
    QuotientStep(y, 4);
    QuotientStep(y, 100);
    QuotientStep(y, 400);
    LeapRule(y);
    assert (y + 1) - 1 == y;
  }

  lemma QuotientStep(y: int, d: int)
    requires d == 4 || d == 100 || d == 400
    ensures y / d == (y - 1) / d + if y % d == 0 then 1 else 0
  {
  }

  lemma LeapRule(y: int)
    ensures y % 400 == 0 ==> y % 100 == 0
    ensures y % 100 == 0 ==> y % 4 == 0
  {
  }

  /** Days of the year before month m (0 = January); m = 12 gives the length of the year. */
  function DaysBefore(m: nat, leap: bool): nat
    requires m <= 12
  {
    var common :=
      if m == 0 then 0 else if m == 1 then 31 else if m == 2 then 59 else if m == 3 then 90
      else if m == 4 then 120 else if m == 5 then 151 else if m == 6 then 181 else if m == 7 then 212
      else if m == 8 then 243 else if m == 9 then 273 else if m == 10 then 304 else if m == 11 then 334 else 365;
    if leap && m >= 2 then common + 1 else common
  }

  /** Day number of the first of a month; months are counted from January of year 0. */
  function MonthStart(month: int): int {
    YearStart(month / 12) + DaysBefore(month % 12, IsLeap(month / 12))
  }

  lemma MonthStep(month: int)
    ensures MonthStart(month) + 28 <= MonthStart(month + 1) <= MonthStart(month) + 31
    ensures MonthStart(month + 1) == YearStart(month / 12) + DaysBefore(month % 12 + 1, IsLeap(month / 12))
  {
    YearLength(month / 12);
    if month % 12 == 11 {
      assert (month + 1) / 12 == month / 12 + 1 && (month + 1) % 12 == 0;
    } else {
      assert (month + 1) / 12 == month / 12 && (month + 1) % 12 == month % 12 + 1;
    }
  }

  /** The months by their lengths: 31 and 30 days in turn, with the break after July, and February by the rule for leap
      years. January 1970 starts on day 0. Together this fixes the start of every month. */
  lemma MonthLengths(month: int)
    ensures MonthStart(12 * 1970) == 0
    ensures var (year, m) := (month / 12, month % 12);
            MonthStart(month + 1) - MonthStart(month)
            == if m in {0, 2, 4, 6, 7, 9, 11} then 31
               else if m in {3, 5, 8, 10} then 30
               else if year % 4 == 0 && (year % 100 != 0 || year % 400 == 0) then 29 else 28
  {
    assert MonthStart(12 * 1970) == 0;
    MonthStep(month);
    hide MonthStart, YearStart;
    var (year, m) := (month / 12, month % 12);
    assert MonthStart(month) == YearStart(year) + DaysBefore(m, IsLeap(year)) by { MonthStartIs(month); }
  }

  lemma MonthStartIs(month: int)
    ensures MonthStart(month) == YearStart(month / 12) + DaysBefore(month % 12, IsLeap(month / 12))
  {
  }

  /** The year a day lies in, from the mean length of the Gregorian year. */
  function YearOf(day: int): (y: int)
    ensures YearStart(y) <= day < YearStart(y + 1)
  {
    var guess := 1970 + day * 400 / 146097;
    GuessIsClose(day, guess);
    if day < YearStart(guess) then guess - 1
    else if day >= YearStart(guess + 1) then guess + 1
    else guess
  }

  lemma GuessIsClose(day: int, guess: int)
    requires guess == 1970 + day * 400 / 146097
    ensures YearStart(guess - 1) <= day < YearStart(guess + 2)
  {
    var q := guess - 1970;
    assert 146097 * q <= 400 * day < 146097 * (q + 1);
    YearStartBounds(guess - 1);
    YearStartBounds(guess + 2);
  }

  lemma YearStartBounds(y: int)
    ensures 146097 * (y - 1970) - 600 <= 400 * YearStart(y) <= 146097 * (y - 1970) + 600
  {
  }

  function MonthInYear(dayInYear: nat, leap: bool): (m: nat)
    requires dayInYear < DaysBefore(12, leap)
    ensures m < 12 && DaysBefore(m, leap) <= dayInYear < DaysBefore(m + 1, leap)
  {
    MonthSearch(dayInYear, leap, 0)
  }

  function MonthSearch(dayInYear: nat, leap: bool, from: nat): (m: nat)
    requires from < 12 && DaysBefore(from, leap) <= dayInYear < DaysBefore(12, leap)
    ensures m < 12 && DaysBefore(m, leap) <= dayInYear < DaysBefore(m + 1, leap)
    decreases 12 - from
  {
    if dayInYear < DaysBefore(from + 1, leap) then from else MonthSearch(dayInYear, leap, from + 1)
  }

  lemma MonthStartOf(y: int, m: nat)
    requires m < 12
    ensures (12 * y + m) / 12 == y && (12 * y + m) % 12 == m
    ensures MonthStart(12 * y + m) == YearStart(y) + DaysBefore(m, IsLeap(y))
    ensures MonthStart(12 * y + m + 1) == YearStart(y) + DaysBefore(m + 1, IsLeap(y))
  {
    hide YearStart, DaysBefore, IsLeap;
    assert (12 * y + m) / 12 == y && (12 * y + m) % 12 == m;
    MonthStep(12 * y + m);
  }

  /** The month of the year a day lies in, 0 = January. */
  function MonthPart(day: int): (m: nat)
    ensures m < 12
    ensures var y := YearOf(day);
            YearStart(y) + DaysBefore(m, IsLeap(y)) <= day < YearStart(y) + DaysBefore(m + 1, IsLeap(y))
  {
    hide *;
    var y := YearOf(day);
    YearLength(y);
    YearDays(IsLeap(y));
    MonthInYear(day - YearStart(y), IsLeap(y))
  }

  /** The month a day lies in. */
  function MonthOf(day: int): int { 12 * YearOf(day) + MonthPart(day) }

  lemma MonthOfBounds(day: int)
    ensures MonthOf(day) / 12 == YearOf(day) && MonthOf(day) % 12 == MonthPart(day)
    ensures MonthStart(MonthOf(day)) <= day < MonthStart(MonthOf(day) + 1)
  {
    hide YearStart, DaysBefore, IsLeap, YearOf, MonthPart, MonthStart;
    MonthStartOf(YearOf(day), MonthPart(day));
  }

  lemma YearDays(leap: bool)
    ensures DaysBefore(12, leap) == if leap then 366 else 365
  {
  }

  function DayOfMonth(day: int): nat {
    MonthOfBounds(day);
    day - MonthStart(MonthOf(day)) + 1
  }

  lemma DayOfMonthBounds(day: int)
    ensures 1 <= DayOfMonth(day) <= 31
  {
    hide YearStart, DaysBefore, IsLeap, YearOf, MonthPart, MonthStart, MonthOf;
    MonthOfBounds(day);
    MonthStep(MonthOf(day));
  }

  /** 0 = Sunday; 1 January 1970 was a Thursday. */
  function DayOfWeek(day: int): (w: nat)
    ensures w < 7
  {
    (day + 4) % 7
  }

  lemma {:induction false} YearStartIncreasing(a: int, b: int)
    requires a < b
    ensures YearStart(a) < YearStart(b)
    decreases b - a
  {
    hide *;
    YearLength(b - 1);
    if a < b - 1 { YearStartIncreasing(a, b - 1); }
  }

  lemma {:induction false} MonthStartIncreasing(a: int, b: int)
    requires a < b
    ensures MonthStart(a) < MonthStart(b)
    decreases b - a
  {
    hide *;
    MonthStep(b - 1);
    if a < b - 1 { MonthStartIncreasing(a, b - 1); }
  }

  /** A day lies in exactly one month. */
  lemma MonthIsUnique(day: int, month: int)
    requires MonthStart(month) <= day < MonthStart(month + 1)
    ensures MonthOf(day) == month
  {
    hide *;
    MonthOfBounds(day);
    var m := MonthOf(day);
    if m < month && m + 1 < month { MonthStartIncreasing(m + 1, month); }
    if month < m && month + 1 < m { MonthStartIncreasing(month + 1, m); }
  }

  lemma YearIsUnique(day: int, y: int)
    requires YearStart(y) <= day < YearStart(y + 1)
    ensures YearOf(day) == y
  {
    hide *;
    var z := YearOf(day);
    if z < y && z + 1 < y { YearStartIncreasing(z + 1, y); }
    if y < z && y + 1 < z { YearStartIncreasing(y + 1, z); }
  }

  /** The day of the month, counted from the start of the year. */
  lemma DayInYear(day: int)
    ensures DayOfMonth(day) == day - YearStart(YearOf(day)) - DaysBefore(MonthPart(day), IsLeap(YearOf(day))) + 1
    ensures var k := day - YearStart(YearOf(day));
            DaysBefore(MonthPart(day), IsLeap(YearOf(day))) <= k < DaysBefore(MonthPart(day) + 1, IsLeap(YearOf(day)))
  {
    hide YearStart, DaysBefore, IsLeap, YearOf, MonthPart, MonthStart;
    MonthStartOf(YearOf(day), MonthPart(day));
  }

  /** Day k of one year and day n of another have the same date, given which of the years are leap years: from March
      on, the days of a leap year are one later, and its 29 February has no like in a common year. */
  predicate SameDate(k: int, leapK: bool, n: int, leapN: bool) {
    if leapK == leapN then k == n
    else if leapK then k != 59 && n == (if k < 59 then k else k - 1)
    else n != 59 && k == if n < 59 then n else n - 1
  }

  lemma SameDateIff(k: int, m: nat, leapK: bool, n: int, p: nat, leapN: bool)
    requires m < 12 && DaysBefore(m, leapK) <= k < DaysBefore(m + 1, leapK)
    requires p < 12 && DaysBefore(p, leapN) <= n < DaysBefore(p + 1, leapN)
    ensures m == p && k - DaysBefore(m, leapK) == n - DaysBefore(p, leapN) <==> SameDate(k, leapK, n, leapN)
  {
  }

  /** Two days have the same month and day of the month exactly if their places in their years have the same date. */
  lemma DatesAgree(a: int, b: int)
    ensures MonthPart(a) == MonthPart(b) && DayOfMonth(a) == DayOfMonth(b) <==>
            SameDate(a - YearStart(YearOf(a)), IsLeap(YearOf(a)), b - YearStart(YearOf(b)), IsLeap(YearOf(b)))
  {
    hide YearStart, DaysBefore, IsLeap, YearOf, MonthPart, DayOfMonth, SameDate;
    DayInYear(a);
    DayInYear(b);
    SameDateIff(a - YearStart(YearOf(a)), MonthPart(a), IsLeap(YearOf(a)),
                b - YearStart(YearOf(b)), MonthPart(b), IsLeap(YearOf(b)));
  }

  /** The sixtieth day of a year is 29 February exactly in leap years. */
  lemma LeapDay(y: int)
    ensures DayOfMonth(YearStart(y) + 59) == 29 <==> IsLeap(y)
  {
    hide YearStart, DaysBefore, IsLeap, MonthStart, MonthOf, DayOfMonth;
    var m := if IsLeap(y) then 1 else 2;
    MonthStartOf(y, m);
    DaysBeforeMarch(y);
    LeapDayIn(y, 12 * y + m);
  }

  lemma DaysBeforeMarch(y: int)
    ensures DaysBefore(1, IsLeap(y)) == 31 && DaysBefore(2, IsLeap(y)) == (if IsLeap(y) then 60 else 59)
    ensures DaysBefore(3, IsLeap(y)) > 59
  {
  }

  lemma LeapDayIn(y: int, month: int)
    requires MonthStart(month) <= YearStart(y) + 59 < MonthStart(month + 1)
    ensures DayOfMonth(YearStart(y) + 59) == YearStart(y) + 60 - MonthStart(month)
  {
    hide YearStart, MonthStart, MonthOf;
    MonthIsUnique(YearStart(y) + 59, month);
  }
}
