/** The Gregorian/Jalali converter (class DateConv). Years are unbounded integers and `%` is the
    truncating C++ operator. The reference notions - linear day numbers and conversion by counting
    days - are written once for both calendars. */
module CDate {

  datatype Calendar = Gregorian | Jalali

  datatype Date = Date(y: int, m: int, d: int)

  // ---------- Leap years ----------

  /** Remainder of C++ integer division: the sign follows the dividend. */
  function CRem(a: int, b: int): int
    requires b > 0
  {
    if a >= 0 then a % b else -((-a) % b)
  }

  predicate IsLeapYearG(gYear: int) {
    var modulus := CRem(gYear, 4);
    if gYear > 0 && modulus == 0 then true
    else if gYear < 0 && modulus == 0 then true
    else gYear == 0
  }

  predicate IsLeapYearJ(jYear: int) {
    var modulus := CRem(jYear, 4);
    if jYear > 0 && modulus == 3 then true
    else jYear < 0 && modulus == -1
  }

  /** On both sides the rule is one leap year in four, with no exception at zero or below. */
  lemma LeapYearsEveryFourth(y: int)
    ensures IsLeapYearG(y) <==> y % 4 == 0
    ensures IsLeapYearJ(y) <==> y % 4 == 3
  {
    if y < 0 {
      var q, t := (-y) / 4, (-y) % 4;
      assert y == 4 * (-q - (if t == 0 then 0 else 1)) + (if t == 0 then 0 else 4 - t);
    }
  }

  predicate IsLeapYear(cal: Calendar, y: int) {
    match cal
    case Gregorian => IsLeapYearG(y)
    case Jalali => IsLeapYearJ(y)
  }

  // ---------- Months and linear days ----------

  function Months(cal: Calendar, y: int): (lengths: seq<int>)
    ensures |lengths| == 12
  {
    match cal
    case Gregorian => [31, if !IsLeapYearG(y) then 28 else 29, 31, 30, 31, 30, 31, 31, 30, 31, 30, 31]
    case Jalali => [31, 31, 31, 31, 31, 31, 30, 30, 30, 30, 30, if !IsLeapYearJ(y) then 29 else 30]
  }

  function YearLength(cal: Calendar, y: int): int {
    if IsLeapYear(cal, y) then 366 else 365
  }

  predicate ValidDate(cal: Calendar, a: Date) {
    1 <= a.m <= 12 && 1 <= a.d <= Months(cal, a.y)[a.m - 1]
  }

  function DaysBeforeMonth(cal: Calendar, y: int, m: int): int
    requires m <= 13
    decreases m
  {
    if m <= 1 then 0 else DaysBeforeMonth(cal, y, m - 1) + Months(cal, y)[m - 2]
  }

  function DayOfYear(cal: Calendar, a: Date): int
    requires a.m <= 13
  {
    DaysBeforeMonth(cal, a.y, a.m) + a.d
  }

  /** Sum of the lengths of the years from 0 up to y (negative for years before 0). */
  function DaysBeforeYear(cal: Calendar, y: int): int
    decreases if y < 0 then -y else y
  {
    if y == 0 then 0
    else if y > 0 then DaysBeforeYear(cal, y - 1) + YearLength(cal, y - 1)
    else DaysBeforeYear(cal, y + 1) - YearLength(cal, y)
  }

  /** The linear day number of a date. */
  function Linear(cal: Calendar, a: Date): int
    requires a.m <= 13
  {
    DaysBeforeYear(cal, a.y) + DayOfYear(cal, a)
  }

  /** The cumulative month lengths, as numbers. */
  function Cumulative(cal: Calendar, leap: int): (c: seq<int>)
    ensures |c| == 13
  {
    match cal
    case Gregorian => [0, 31, 59 + leap, 90 + leap, 120 + leap, 151 + leap, 181 + leap, 212 + leap,
                       243 + leap, 273 + leap, 304 + leap, 334 + leap, 365 + leap]
    case Jalali => [0, 31, 62, 93, 124, 155, 186, 216, 246, 276, 306, 336, 365 + leap]
  }

  lemma CumulativeStep(cal: Calendar, y: int, m: int)
    requires 2 <= m <= 13
    ensures var leap := if IsLeapYear(cal, y) then 1 else 0;
            Cumulative(cal, leap)[m - 1] == Cumulative(cal, leap)[m - 2] + Months(cal, y)[m - 2]
  {
  }

  lemma {:induction false} MonthEntry(cal: Calendar, y: int, m: int)
    requires 1 <= m <= 13
    ensures DaysBeforeMonth(cal, y, m) == Cumulative(cal, if IsLeapYear(cal, y) then 1 else 0)[m - 1]
    decreases m
  {
    assert Cumulative(cal, if IsLeapYear(cal, y) then 1 else 0)[0] == 0;
    hide Cumulative, Months, IsLeapYear;
    if m > 1 {
      MonthEntry(cal, y, m - 1);
      CumulativeStep(cal, y, m);
    }
  }

  /** Closed form of the year sum. */
  lemma {:induction false} YearSum(cal: Calendar, y: int)
    ensures DaysBeforeYear(cal, y) == 365 * y + (if cal.Gregorian? then (y + 3) / 4 else y / 4)
    decreases if y < 0 then -y else y
  {
    hide YearLength;
    if y > 0 {
      YearSum(cal, y - 1);
      YearStep(cal, y - 1);
    } else if y < 0 {
      YearSum(cal, y + 1);
      YearStep(cal, y);
    }
  }

  lemma YearStep(cal: Calendar, y: int)
    ensures YearLength(cal, y) == 365 + if cal.Gregorian? then (y + 4) / 4 - (y + 3) / 4 else (y + 1) / 4 - y / 4
  {
    LeapYearsEveryFourth(y);
    hide IsLeapYearG, IsLeapYearJ;
  }

  // ---------- Order of dates ----------

  predicate Before(a: Date, b: Date) {
    a.y < b.y || (a.y == b.y && (a.m < b.m || (a.m == b.m && a.d < b.d)))
  }

  /** Day numbers of valid dates order them as (year, month, day) does; so they identify dates. */
  lemma LinearIsMonotone(cal: Calendar, a: Date, b: Date)
    requires ValidDate(cal, a) && ValidDate(cal, b)
    ensures Before(a, b) <==> Linear(cal, a) < Linear(cal, b)
    ensures a == b <==> Linear(cal, a) == Linear(cal, b)
  {
    LinearGrows(cal, a, b);
    LinearGrows(cal, b, a);
  }

  lemma LinearGrows(cal: Calendar, a: Date, b: Date)
    requires ValidDate(cal, a) && ValidDate(cal, b)
    ensures Before(a, b) ==> Linear(cal, a) < Linear(cal, b)
  {
    if a.y < b.y {
      DayOfYearRange(cal, a);
      DayOfYearRange(cal, b);
      YearsGrow(cal, a.y, b.y);
    } else if a.y == b.y && a.m < b.m {
      MonthsGrow(cal, a.y, a.m, b.m);
    }
  }

  lemma {:induction false} YearsGrow(cal: Calendar, y: int, z: int)
    requires y < z
    ensures DaysBeforeYear(cal, y) + YearLength(cal, y) <= DaysBeforeYear(cal, z)
  {
    YearSum(cal, y);
    YearSum(cal, z);
    LeapYearsEveryFourth(y);
  }

  lemma {:induction false} MonthsGrow(cal: Calendar, y: int, m: int, n: int)
    requires 1 <= m < n <= 13
    ensures DaysBeforeMonth(cal, y, m) + Months(cal, y)[m - 1] <= DaysBeforeMonth(cal, y, n)
    decreases n
  {
    if m < n - 1 { MonthsGrow(cal, y, m, n - 1); }
  }

  lemma {:induction false} YearOfMonths(cal: Calendar, y: int)
    ensures DaysBeforeMonth(cal, y, 13) == YearLength(cal, y)
  {
    MonthEntry(cal, y, 13);
    hide IsLeapYear, DaysBeforeMonth;
  }

  lemma MonthsAreLong(cal: Calendar, y: int, m: int)
    requires 1 <= m <= 12
    ensures Months(cal, y)[m - 1] >= 28
  {
  }

  lemma DayOfYearRange(cal: Calendar, a: Date)
    requires ValidDate(cal, a)
    ensures 1 <= DayOfYear(cal, a) <= YearLength(cal, a.y)
  {
    hide Months, YearLength;
    YearOfMonths(cal, a.y);
    MonthsGrow(cal, a.y, a.m, 13);
    if a.m > 1 {
      MonthsGrow(cal, a.y, 1, a.m);
      MonthsAreLong(cal, a.y, 1);
    }
  }

  /** The day after a date. */
  function Next(cal: Calendar, a: Date): (b: Date)
    requires ValidDate(cal, a)
    ensures ValidDate(cal, b)
  {
    if a.d < Months(cal, a.y)[a.m - 1] then a.(d := a.d + 1)
    else if a.m < 12 then Date(a.y, a.m + 1, 1)
    else Date(a.y + 1, 1, 1)
  }

  lemma NextIsSuccessor(cal: Calendar, a: Date)
    requires ValidDate(cal, a)
    ensures Linear(cal, Next(cal, a)) == Linear(cal, a) + 1
  {
    hide Months, DaysBeforeYear;
    if a.d == Months(cal, a.y)[a.m - 1] {
      if a.m == 12 {
        YearEnd(cal, a.y);
        assert DaysBeforeMonth(cal, a.y + 1, 1) == 0;
        hide DaysBeforeMonth;
      } else {
        assert DaysBeforeMonth(cal, a.y, a.m + 1) == DaysBeforeMonth(cal, a.y, a.m) + a.d;
        hide DaysBeforeMonth;
      }
    }
  }

  lemma YearEnd(cal: Calendar, y: int)
    ensures DaysBeforeYear(cal, y) + DaysBeforeMonth(cal, y, 12) + Months(cal, y)[11] == DaysBeforeYear(cal, y + 1)
  {
    MonthEntry(cal, y, 13);
    YearSum(cal, y);
    YearSum(cal, y + 1);
    LeapYearsEveryFourth(y);
  }

  // ---------- Reference conversion: count days, then count months ----------

  function FromDayOfYear(cal: Calendar, y: int, m: int, k: int): (a: Date)
    requires 1 <= m <= 12 && 1 <= k
    requires DaysBeforeMonth(cal, y, m) + k <= YearLength(cal, y)
    ensures ValidDate(cal, a) && a.y == y
    ensures DayOfYear(cal, a) == DaysBeforeMonth(cal, y, m) + k
    decreases 12 - m
  {
    MonthEntry(cal, y, 13);
    if k <= Months(cal, y)[m - 1] then Date(y, m, k)
    else FromDayOfYear(cal, y, m + 1, k - Months(cal, y)[m - 1])
  }

  function DateAt(cal: Calendar, y: int, k: int): (a: Date)
    requires 1 <= k <= YearLength(cal, y)
    ensures ValidDate(cal, a) && a.y == y && DayOfYear(cal, a) == k
  {
    FromDayOfYear(cal, y, 1, k)
  }

  /** Day `k` of Jalali year `jYear`, in the Gregorian calendar: 1 Farvardin is always day 80. */
  function GregorianOf(jYear: int, k: int): (a: Date)
    requires 1 <= k <= YearLength(Jalali, jYear)
    ensures ValidDate(Gregorian, a)
  {
    var g := jYear + 621;
    LeapYearsEveryFourth(jYear);
    LeapYearsEveryFourth(g);
    var length := YearLength(Gregorian, g);
    if k + 79 <= length then DateAt(Gregorian, g, k + 79) else DateAt(Gregorian, g + 1, k + 79 - length)
  }

  function JalaliOf(gYear: int, k: int): (a: Date)
    requires 1 <= k <= YearLength(Gregorian, gYear)
    ensures ValidDate(Jalali, a)
  {
    LeapYearsEveryFourth(gYear);
    LeapYearsEveryFourth(gYear - 621);
    if k > 79 then DateAt(Jalali, gYear - 621, k - 79)
    else DateAt(Jalali, gYear - 622, k - 79 + YearLength(Jalali, gYear - 622))
  }

  function ToJ(a: Date): (b: Date)
    requires ValidDate(Gregorian, a)
    ensures ValidDate(Jalali, b)
  {
    DayOfYearRange(Gregorian, a);
    JalaliOf(a.y, DayOfYear(Gregorian, a))
  }

  function ToG(a: Date): (b: Date)
    requires ValidDate(Jalali, a)
    ensures ValidDate(Gregorian, b)
  {
    DayOfYearRange(Jalali, a);
    GregorianOf(a.y, DayOfYear(Jalali, a))
  }
}
