/** The converter as written: month-length loops, threshold tables and formatted results. Every method
    is proved against the day-counting conversion of module CDate. */
module DateConv {
  import opened Text
  import opened CDate
  import opened Isomorphism

  // ---------- Formatting ----------

  function Pad2(n: int): string {
    var s := IntToStr(n);
    if |s| == 1 then "0" + s else s
  }

  function FormatDate(a: Date): string {
    IntToStr(a.y) + "/" + Pad2(a.m) + "/" + Pad2(a.d)
  }

  /** Reads `y/m/d`. */
  function ParseDate(s: string): Option<Date> {
    var parts := Split(s, '/');
    if |parts| != 3 then None
    else
      var y, m, d := StrToInt(parts[0]), StrToInt(parts[1]), StrToInt(parts[2]);
      if y.Some? && m.Some? && d.Some? then Some(Date(y.value, m.value, d.value)) else None
  }

  lemma PadRoundTrip(n: int)
    requires 0 <= n < 100
    ensures |Pad2(n)| == 2 && '/' !in Pad2(n) && StrToInt(Pad2(n)) == Some(n)
  {
    IntRoundTrip(n);
    var s := IntToStr(n);
    if n < 10 {
      assert Pad2(n)[..1] == "0" && ("0")[..0] == "";
      assert DigitsValue("0") == 0;
      assert DigitsValue(Pad2(n)) == n;
    }
  }

  /** Month and day always take two characters, and a formatted date reads back as itself. */
  lemma FormatRoundTrip(a: Date)
    requires 0 <= a.m < 100 && 0 <= a.d < 100
    ensures ParseDate(FormatDate(a)) == Some(a)
    ensures |FormatDate(a)| == |IntToStr(a.y)| + 6
  {
    var y, m, d := IntToStr(a.y), Pad2(a.m), Pad2(a.d);
    IntRoundTrip(a.y);
    PadRoundTrip(a.m);
    PadRoundTrip(a.d);
    assert '/' !in y;
    var parts := [y, m, d];
    SplitJoin(parts, '/');
    assert parts[1..] == [m, d] && parts[1..][1..] == [d];
    assert Join([d], '/') == d && Join([m, d], '/') == m + "/" + d;
    assert Join(parts, '/') == FormatDate(a);
  }

  // ---------- Range checks ----------

  predicate IsRangeValidG(gYear: int, gMonth: int, gDay: int) {
    gYear < 10000 && gYear > -10000 &&
    gMonth < 13 && gMonth > 0 &&
    gDay <= Months(Gregorian, gYear)[gMonth - 1] && gDay > 0
  }

  predicate IsRangeValidJ(jYear: int, jMonth: int, jDay: int) {
    jYear < 10000 && jYear > -100 &&
    jMonth < 13 && jMonth > 0 &&
    jDay <= Months(Jalali, jYear)[jMonth - 1] && jDay > 0
  }

  // ---------- Day of the year ----------

  method DayOfYearG(gYear: int, gMonth: int, gDay: int) returns (result: int)
    requires gMonth <= 13
    ensures result == DayOfYear(Gregorian, Date(gYear, gMonth, gDay))
  {
    var gMonths := new int[] [31, if !IsLeapYearG(gYear) then 28 else 29, 31, 30, 31, 30, 31, 31, 30, 31, 30, 31];
    result := 0;
    var i := 0;
    while i < gMonth - 1
      invariant 0 <= i && (i <= gMonth - 1 || i == 0)
      invariant gMonths[..] == Months(Gregorian, gYear)
      invariant result == DaysBeforeMonth(Gregorian, gYear, i + 1)
    {
      assert gMonths[i] == gMonths[..][i];
      result := result + gMonths[i];
      i := i + 1;
    }
    result := result + gDay;
  }

  method DayOfYearJ(jYear: int, jMonth: int, jDay: int) returns (result: int)
    requires jMonth <= 13
    ensures result == DayOfYear(Jalali, Date(jYear, jMonth, jDay))
  {
    var jMonths := new int[] [31, 31, 31, 31, 31, 31, 30, 30, 30, 30, 30, if !IsLeapYearJ(jYear) then 29 else 30];
    result := 0;
    var i := 0;
    while i < jMonth - 1
      invariant 0 <= i && (i <= jMonth - 1 || i == 0)
      invariant jMonths[..] == Months(Jalali, jYear)
      invariant result == DaysBeforeMonth(Jalali, jYear, i + 1)
    {
      assert jMonths[i] == jMonths[..][i];
      result := result + jMonths[i];
      i := i + 1;
    }
    result := result + jDay;
  }

  // ---------- The threshold tables ----------

  /** Day of the Jalali year on which each Gregorian month starts; March (entry 2) wraps around. */
  function DayMatchG(jYear: int): (t: seq<int>)
    ensures |t| == 13
  {
    var isLeapYear := IsLeapYearJ(jYear);
    [if !isLeapYear then 287 else 288, if !isLeapYear then 318 else 319,
     if !isLeapYear && !IsLeapYearJ(jYear + 1) then 346 else 347,
     if !isLeapYear then 12 else 13, if !isLeapYear then 42 else 43, if !isLeapYear then 73 else 74,
     if !isLeapYear then 103 else 104, if !isLeapYear then 134 else 135, if !isLeapYear then 165 else 166,
     if !isLeapYear then 195 else 196, if !isLeapYear then 226 else 227, if !isLeapYear then 256 else 257, 999]
  }

  /** Day of the Gregorian year on which each Jalali month starts; Dey (entry 9) wraps around. */
  function DayMatchJ(gYear: int): (t: seq<int>)
    ensures |t| == 13
  {
    var isLeapYear := IsLeapYearG(gYear - 1);
    [80, 111, 142, 173, 204, 235, 266, 296, 326, 356,
     if !isLeapYear then 21 else 20, if !isLeapYear then 51 else 50, 999]
  }

  /** The condition under which the search stops at entry `i`; `wrap` is the month that wraps around. */
  predicate Hit(dayMatch: seq<int>, dayOfYear: int, i: int, wrap: int)
    requires |dayMatch| == 13 && 0 <= i < 12
  {
    (dayOfYear >= dayMatch[i] && dayOfYear < dayMatch[i + 1]) ||
    ((dayOfYear >= dayMatch[i] || dayOfYear < dayMatch[i + 1]) && i == wrap)
  }

  /** The thresholds run once around the year: they ascend, restarting after entry `wrap`. */
  predicate Ring(t: seq<int>, wrap: int)
    requires |t| == 13 && 0 <= wrap < 11
  {
    (forall a, b :: 0 <= a < b <= wrap ==> t[a] < t[b]) &&
    (forall a, b :: wrap < a < b <= 11 ==> t[a] < t[b]) &&
    t[11] < t[0]
  }

  /** Position of the first hit in the ring, and that there is one. */
  lemma FirstHit(t: seq<int>, k: int, i: int, wrap: int)
    requires |t| == 13 && 0 <= wrap < 11 && Ring(t, wrap) && k < t[12]
    requires 0 <= i < 12
    requires forall j :: 0 <= j < i ==> !Hit(t, k, j, wrap)
    ensures Hit(t, k, i, wrap) ==>
              if i == wrap then k >= t[i] || k < t[i + 1]
              else t[i] <= k < if i == 11 then t[0] else t[i + 1]
    ensures i == 11 ==> Hit(t, k, i, wrap)
  {
    if i > 0 { NoHitBefore(t, k, i, wrap); }
  }

  lemma {:induction false} NoHitBefore(t: seq<int>, k: int, i: int, wrap: int)
    requires |t| == 13 && 0 <= wrap < 11 && Ring(t, wrap)
    requires 0 < i < 12
    requires forall j :: 0 <= j < i ==> !Hit(t, k, j, wrap)
    ensures i <= wrap && k >= t[0] ==> k >= t[i]
    ensures i > wrap ==> t[i] <= k < t[0]
  {
    if i > 1 { NoHitBefore(t, k, i - 1, wrap); }
    assert !Hit(t, k, i - 1, wrap);
  }

  lemma RingG(jYear: int)
    ensures Ring(DayMatchG(jYear), 2)
  {
  }

  lemma LeapYearsMeet(jYear: int)
    ensures IsLeapYearG(jYear + 621) == IsLeapYearJ(jYear)
    ensures IsLeapYearG(jYear + 622) == IsLeapYearJ(jYear + 1)
    ensures IsLeapYearJ(jYear) ==> !IsLeapYearJ(jYear + 1)
  {
    LeapYearsEveryFourth(jYear);
    LeapYearsEveryFourth(jYear + 1);
    LeapYearsEveryFourth(jYear + 621);
    LeapYearsEveryFourth(jYear + 622);
  }

  /** Each threshold is the first day of its month, counted in the days of the other calendar's year. */
  lemma {:induction false} ThresholdsG(jYear: int, i: int)
    requires 0 <= i < 12
    ensures DayMatchG(jYear)[i] ==
            if i < 3 then DaysBeforeMonth(Gregorian, jYear + 622, i + 1) + YearLength(Gregorian, jYear + 621) - 78
            else DaysBeforeMonth(Gregorian, jYear + 621, i + 1) - 78
  {
    LeapYearsMeet(jYear);
    MonthEntry(Gregorian, if i < 3 then jYear + 622 else jYear + 621, i + 1);
  }

  lemma RingJ(gYear: int)
    ensures Ring(DayMatchJ(gYear), 9)
    ensures IsLeapYearJ(gYear - 622) == IsLeapYearG(gYear - 1)
  {
    LeapYearsEveryFourth(gYear - 1);
    LeapYearsEveryFourth(gYear - 622);
  }

  lemma {:induction false} ThresholdsJ(gYear: int, i: int)
    requires 0 <= i < 12
    ensures DayMatchJ(gYear)[i] ==
            if i <= 9 then DaysBeforeMonth(Jalali, gYear - 621, i + 1) + 80
            else DaysBeforeMonth(Jalali, gYear - 622, i + 1) + 80 - YearLength(Jalali, gYear - 622)
  {
    RingJ(gYear);
    hide IsLeapYearG, IsLeapYearJ, DaysBeforeMonth;
    MonthEntry(Jalali, if i <= 9 then gYear - 621 else gYear - 622, i + 1);
  }

  /** A date is determined by its year and day of the year. */
  lemma {:induction false} SameDay(cal: Calendar, a: Date, b: Date)
    requires ValidDate(cal, b) && 1 <= a.m <= 12 && a.y == b.y
    requires 1 <= a.d <= DaysBeforeMonth(cal, a.y, a.m + 1) - DaysBeforeMonth(cal, a.y, a.m)
    requires DayOfYear(cal, a) == DayOfYear(cal, b)
    ensures a == b
  {
    LinearIsMonotone(cal, a, b);
  }

  /** The arithmetic at the first hit gives the counted date. */
  lemma FirstHitG(jYear: int, k: int, i: int)
    requires 1 <= k <= YearLength(Jalali, jYear) && 0 <= i < 12
    requires forall j :: 0 <= j < i ==> !Hit(DayMatchG(jYear), k, j, 2)
    ensures Hit(DayMatchG(jYear), k, i, 2) ==>
              GregorianOf(jYear, k) == Date(if k < DayMatchG(jYear)[0] then jYear + 621 else jYear + 622, i + 1,
                                            if k >= DayMatchG(jYear)[i] then k - DayMatchG(jYear)[i] + 1
                                            else if !IsLeapYearJ(jYear) then k + 20 else k + 19)
    ensures i == 11 ==> Hit(DayMatchG(jYear), k, i, 2)
  {
    var t := DayMatchG(jYear);
    hide IsLeapYearG, IsLeapYearJ, Months, DaysBeforeMonth;
    RingG(jYear);
    LeapYearsMeet(jYear);
    ThresholdsG(jYear, i);
    ThresholdsG(jYear, 0);
    ThresholdsG(jYear, 3);
    FirstHit(t, k, i, 2);
    if Hit(t, k, i, 2) {
      var y := if k < t[0] then jYear + 621 else jYear + 622;
      var d := if k >= t[i] then k - t[i] + 1 else if !IsLeapYearJ(jYear) then k + 20 else k + 19;
      MonthEntry(Gregorian, y, i + 1);
      MonthEntry(Gregorian, y, i + 2);
      if i < 11 { ThresholdsG(jYear, i + 1); }
      SameDay(Gregorian, Date(y, i + 1, d), GregorianOf(jYear, k));
    }
  }

  lemma FirstHitJ(gYear: int, k: int, i: int)
    requires 1 <= k <= YearLength(Gregorian, gYear) && 0 <= i < 12
    requires forall j :: 0 <= j < i ==> !Hit(DayMatchJ(gYear), k, j, 9)
    ensures Hit(DayMatchJ(gYear), k, i, 9) ==>
              JalaliOf(gYear, k) == Date(if k > 79 then gYear - 621 else gYear - 622, i + 1,
                                         if k >= DayMatchJ(gYear)[i] then k - DayMatchJ(gYear)[i] + 1
                                         else if !IsLeapYearG(gYear - 1) then k + 10 else k + 11)
    ensures i == 11 ==> Hit(DayMatchJ(gYear), k, i, 9)
  {
    var t := DayMatchJ(gYear);
    hide IsLeapYearG, IsLeapYearJ, Months, DaysBeforeMonth;
    RingJ(gYear);
    ThresholdsJ(gYear, i);
    ThresholdsJ(gYear, 0);
    ThresholdsJ(gYear, 10);
    FirstHit(t, k, i, 9);
    if Hit(t, k, i, 9) {
      var y := if k > 79 then gYear - 621 else gYear - 622;
      var d := if k >= t[i] then k - t[i] + 1 else if !IsLeapYearG(gYear - 1) then k + 10 else k + 11;
      MonthEntry(Jalali, y, i + 1);
      MonthEntry(Jalali, y, i + 2);
      if i < 11 { ThresholdsJ(gYear, i + 1); }
      SameDay(Jalali, Date(y, i + 1, d), JalaliOf(gYear, k));
    }
  }

  // ---------- The converters ----------

  method CalcToG(jYear: int, dayOfYear: int) returns (s: string)
    ensures 1 <= dayOfYear <= YearLength(Jalali, jYear) ==> s == FormatDate(GregorianOf(jYear, dayOfYear))
  {
    var isLeapYear := IsLeapYearJ(jYear);
    var dayMatch := DayMatchG(jYear);
    var gDay, gMonth := "", "";
    ghost var valid := 1 <= dayOfYear <= YearLength(Jalali, jYear);
    ghost var hit := false;
    var i := 0;
    while i < 12
      invariant 0 <= i <= 12 && !hit
      invariant forall j :: 0 <= j < i ==> !Hit(dayMatch, dayOfYear, j, 2)
      invariant i == 12 ==> !valid
    {
      if valid { FirstHitG(jYear, dayOfYear, i); }
      if Hit(dayMatch, dayOfYear, i, 2) {
        gDay := IntToStr(if dayOfYear >= dayMatch[i] then dayOfYear - dayMatch[i] + 1
                         else if !isLeapYear then dayOfYear + 20 else dayOfYear + 19);
        gMonth := IntToStr(i + 1);
        hit := true;
        break;
      }
      i := i + 1;
    }
    s := IntToStr(if dayOfYear < dayMatch[0] then jYear + 621 else jYear + 622) + "/" +
         (if |gMonth| == 1 then "0" + gMonth else gMonth) + "/" +
         (if |gDay| != 1 then gDay else "0" + gDay);
  }

  method CalcToJ(gYear: int, dayOfYear: int) returns (s: string)
    ensures 1 <= dayOfYear <= YearLength(Gregorian, gYear) ==> s == FormatDate(JalaliOf(gYear, dayOfYear))
  {
    var isLeapYear := IsLeapYearG(gYear - 1);
    var dayMatch := DayMatchJ(gYear);
    var jDay, jMonth := "", "";
    ghost var valid := 1 <= dayOfYear <= YearLength(Gregorian, gYear);
    ghost var hit := false;
    var i := 0;
    while i < 12
      invariant 0 <= i <= 12 && !hit
      invariant forall j :: 0 <= j < i ==> !Hit(dayMatch, dayOfYear, j, 9)
      invariant i == 12 ==> !valid
    {
      if valid { FirstHitJ(gYear, dayOfYear, i); }
      if Hit(dayMatch, dayOfYear, i, 9) {
        jDay := IntToStr(if dayOfYear >= dayMatch[i] then dayOfYear - dayMatch[i] + 1
                         else if !isLeapYear then dayOfYear + 10 else dayOfYear + 11);
        jMonth := IntToStr(i + 1);
        hit := true;
        break;
      }
      i := i + 1;
    }
    s := IntToStr(if dayOfYear > 79 then gYear - 621 else gYear - 622) + "/" +
         (if |jMonth| == 1 then "0" + jMonth else jMonth) + "/" +
         (if |jDay| != 1 then jDay else "0" + jDay);
  }

  lemma ConversionUnfolds(g: Date, j: Date)
    requires ValidDate(Gregorian, g) && ValidDate(Jalali, j)
    ensures var k := DayOfYear(Gregorian, g); 1 <= k <= YearLength(Gregorian, g.y) && JalaliOf(g.y, k) == ToJ(g)
    ensures var k := DayOfYear(Jalali, j); 1 <= k <= YearLength(Jalali, j.y) && GregorianOf(j.y, k) == ToG(j)
  {
    DayOfYearRange(Gregorian, g);
    DayOfYearRange(Jalali, j);
    hide ValidDate, YearLength, DayOfYear, JalaliOf, GregorianOf;
  }

  lemma MonthInRange(cal: Calendar, a: Date)
    requires ValidDate(cal, a)
    ensures 1 <= a.m <= 12 && 1 <= a.d <= 31
  {
  }

  lemma BackG(a: Date)
    requires ValidDate(Gregorian, a)
    ensures var k := DayOfYear(Gregorian, a); 1 <= k <= YearLength(Gregorian, a.y) && JalaliOf(a.y, k) == ToJ(a)
    ensures ParseDate(FormatDate(ToJ(a))) == Some(ToJ(a)) && 1 <= ToJ(a).m <= 12
    ensures var j := ToJ(a);
            var k := DayOfYear(Jalali, j);
            1 <= k <= YearLength(Jalali, j.y) && GregorianOf(j.y, k) == a
  {
    hide *;
    ConversionUnfolds(a, ToJ(a));
    MonthInRange(Jalali, ToJ(a));
    DayOfYearRange(Gregorian, a);
    DayOfYearRange(Jalali, ToJ(a));
    RoundTripG(a);
    FormatRoundTrip(ToJ(a));
  }

  lemma BackJ(a: Date)
    requires ValidDate(Jalali, a)
    ensures var k := DayOfYear(Jalali, a); 1 <= k <= YearLength(Jalali, a.y) && GregorianOf(a.y, k) == ToG(a)
    ensures ParseDate(FormatDate(ToG(a))) == Some(ToG(a)) && 1 <= ToG(a).m <= 12
    ensures var g := ToG(a);
            var k := DayOfYear(Gregorian, g);
            1 <= k <= YearLength(Gregorian, g.y) && JalaliOf(g.y, k) == a
  {
    hide *;
    ConversionUnfolds(ToG(a), a);
    MonthInRange(Gregorian, ToG(a));
    DayOfYearRange(Jalali, a);
    DayOfYearRange(Gregorian, ToG(a));
    RoundTripJ(a);
    FormatRoundTrip(ToG(a));
  }

  /** The loops and searches of both directions in turn, for every integer year: there and back through the
      text is the identity on valid dates. */
  method GregorianThereAndBack(gYear: int, gMonth: int, gDay: int) returns (jalali: Option<Date>, s: string)
    requires ValidDate(Gregorian, Date(gYear, gMonth, gDay))
    ensures jalali == Some(ToJ(Date(gYear, gMonth, gDay)))
    ensures s == FormatDate(Date(gYear, gMonth, gDay))
  {
    BackG(Date(gYear, gMonth, gDay));
    hide *;
    var k := DayOfYearG(gYear, gMonth, gDay);
    var t := CalcToJ(gYear, k);
    jalali := ParseDate(t);
    k := DayOfYearJ(jalali.value.y, jalali.value.m, jalali.value.d);
    s := CalcToG(jalali.value.y, k);
  }

  method JalaliThereAndBack(jYear: int, jMonth: int, jDay: int) returns (gregorian: Option<Date>, s: string)
    requires ValidDate(Jalali, Date(jYear, jMonth, jDay))
    ensures gregorian == Some(ToG(Date(jYear, jMonth, jDay)))
    ensures s == FormatDate(Date(jYear, jMonth, jDay))
  {
    BackJ(Date(jYear, jMonth, jDay));
    hide *;
    var k := DayOfYearJ(jYear, jMonth, jDay);
    var t := CalcToG(jYear, k);
    gregorian := ParseDate(t);
    k := DayOfYearG(gregorian.value.y, gregorian.value.m, gregorian.value.d);
    s := CalcToJ(gregorian.value.y, k);
  }

  function GregorianText(a: Date): string {
    if IsRangeValidJ(a.y, a.m, a.d) then FormatDate(ToG(a)) else ""
  }

  function JalaliText(a: Date): string {
    if IsRangeValidG(a.y, a.m, a.d) then FormatDate(ToJ(a)) else ""
  }

  method ToGregorian(jYear: int, jMonth: int, jDay: int) returns (s: string)
    ensures s == GregorianText(Date(jYear, jMonth, jDay))
  {
    if !IsRangeValidJ(jYear, jMonth, jDay) {
      return "";
    }
    var k := DayOfYearJ(jYear, jMonth, jDay);
    DayOfYearRange(Jalali, Date(jYear, jMonth, jDay));
    s := CalcToG(jYear, k);
  }

  method ToJalali(gYear: int, gMonth: int, gDay: int) returns (s: string)
    ensures s == JalaliText(Date(gYear, gMonth, gDay))
  {
    if !IsRangeValidG(gYear, gMonth, gDay) {
      return "";
    }
    var k := DayOfYearG(gYear, gMonth, gDay);
    DayOfYearRange(Gregorian, Date(gYear, gMonth, gDay));
    s := CalcToJ(gYear, k);
  }

  // ---------- The text interface ----------

  lemma RangeOfValidDate(a: Date)
    ensures ValidDate(Gregorian, a) ==> (IsRangeValidG(a.y, a.m, a.d) <==> -10000 < a.y < 10000)
    ensures ValidDate(Jalali, a) ==> (IsRangeValidJ(a.y, a.m, a.d) <==> -100 < a.y < 10000)
    ensures IsRangeValidG(a.y, a.m, a.d) ==> ValidDate(Gregorian, a)
    ensures IsRangeValidJ(a.y, a.m, a.d) ==> ValidDate(Jalali, a)
  {
  }

  lemma {:induction false} DaysBeforeMarch(y: int)
    requires !IsLeapYearG(y)
    ensures DaysBeforeMonth(Gregorian, y, 3) == 59 && ValidDate(Gregorian, Date(y, 3, 21))
  {
    MonthEntry(Gregorian, y, 3);
    hide IsLeapYearG, DaysBeforeMonth;
  }

  lemma {:induction false} DaysBeforeDey(y: int)
    ensures DaysBeforeMonth(Jalali, y, 10) == 276 && ValidDate(Jalali, Date(y, 10, 11))
  {
    MonthEntry(Jalali, y, 10);
    hide IsLeapYearJ, DaysBeforeMonth;
  }

  /** 21 March is the first day of a Jalali year, and 11 Dey of a Gregorian one, when their own years are not leap. */
  lemma FirstOfFarvardin(y: int)
    requires !IsLeapYearG(y)
    ensures ValidDate(Gregorian, Date(y, 3, 21)) && ToJ(Date(y, 3, 21)) == Date(y - 621, 1, 1)
  {
    hide IsLeapYearG, IsLeapYearJ, DaysBeforeMonth, DateAt, Months, ValidDate;
    DaysBeforeMarch(y);
    FirstOfYear(Jalali, y - 621);
  }

  lemma FirstOfJanuary(y: int)
    requires !IsLeapYearJ(y)
    ensures ValidDate(Jalali, Date(y, 10, 11)) && ToG(Date(y, 10, 11)) == Date(y + 622, 1, 1)
  {
    hide IsLeapYearG, IsLeapYearJ, DaysBeforeMonth, DateAt, Months, ValidDate;
    DaysBeforeDey(y);
    LeapYearsMeet(y);
    FirstOfYear(Gregorian, y + 622);
  }

  lemma FirstOfYear(cal: Calendar, y: int)
    ensures DateAt(cal, y, 1) == Date(y, 1, 1)
  {
    MonthsAreLong(cal, y, 1);
    hide Months;
  }

  /** Jalali year -99 starts on 522/03/21, and Gregorian year 10000 on 9378/10/11. */
  lemma EarliestDate(a: Date)
    requires ValidDate(Gregorian, a)
    ensures ToJ(a).y > -100 <==> !Before(a, Date(522, 3, 21))
  {
    FirstOfFarvardin(522);
    assert ToJ(a).m >= 1 && ToJ(a).d >= 1;
    hide ToJ, ToG, ValidDate;
    OrderIsomorphism(a, Date(522, 3, 21));
  }

  lemma LatestDate(a: Date)
    requires ValidDate(Jalali, a)
    ensures ToG(a).y < 10000 <==> Before(a, Date(9378, 10, 11))
  {
    FirstOfJanuary(9378);
    assert ToG(a).m >= 1 && ToG(a).d >= 1;
    hide ToJ, ToG, ValidDate;
    OrderIsomorphismBack(a, Date(9378, 10, 11));
  }

  /** Converting a Gregorian date to Jalali text and that text back gives the original date exactly
      from 522/03/21 on (Jalali year -99); before it the second conversion refuses its input. */
  lemma TextRoundTripG(a: Date)
    requires IsRangeValidG(a.y, a.m, a.d)
    ensures ParseDate(JalaliText(a)) == Some(ToJ(a))
    ensures GregorianText(ToJ(a)) == if !Before(a, Date(522, 3, 21)) then FormatDate(a) else ""
  {
    RangeOfValidDate(a);
    RangeOfValidDate(ToJ(a));
    EarliestDate(a);
    FormatRoundTrip(ToJ(a));
    RoundTripG(a);
  }

  /** The other way round, the condition is that the Gregorian year stays below 10000,
      which it does before 9378/10/11. */
  lemma TextRoundTripJ(a: Date)
    requires IsRangeValidJ(a.y, a.m, a.d)
    ensures ParseDate(GregorianText(a)) == Some(ToG(a))
    ensures JalaliText(ToG(a)) == if Before(a, Date(9378, 10, 11)) then FormatDate(a) else ""
  {
    RangeOfValidDate(a);
    RangeOfValidDate(ToG(a));
    LatestDate(a);
    FormatRoundTrip(ToG(a));
    RoundTripJ(a);
  }

  /** A date for the record: 1 Farvardin 1394 was 21 March 2015. */
  lemma NowruzOf1394()
    ensures JalaliText(Date(2015, 3, 21)) == "1394/01/01" && GregorianText(Date(1394, 1, 1)) == "2015/03/21"
  {
    FirstOfFarvardin(2015);
    RoundTripG(Date(2015, 3, 21));
    TextOfNowruz();
    hide ToJ, ToG, FormatDate, ValidDate;
    RangeOfValidDate(Date(2015, 3, 21));
    RangeOfValidDate(Date(1394, 1, 1));
  }

  lemma TextOfNowruz()
    ensures FormatDate(Date(1394, 1, 1)) == "1394/01/01" && FormatDate(Date(2015, 3, 21)) == "2015/03/21"
  {
    FourDigits(1394);
    FourDigits(2015);
    TwoFigures();
    assert IntToStr(1394) == "1394" && IntToStr(2015) == "2015";
    hide IntToStr, Pad2, Digit;
    TextsOfNowruz();
  }

  lemma TwoFigures()
    ensures Pad2(1) == "01" && Pad2(3) == "03" && Pad2(21) == "21"
  {
  }

  lemma TextsOfNowruz()
    ensures "1394" + "/" + "01" + "/" + "01" == "1394/01/01"
    ensures "2015" + "/" + "03" + "/" + "21" == "2015/03/21"
  {
  }

  lemma FourDigits(n: nat)
    requires 1000 <= n < 10000
    ensures IntToStr(n) == [Digit(n / 1000), Digit(n / 100 % 10), Digit(n / 10 % 10), Digit(n % 10)]
  {
    assert Digits(n) == Digits(n / 10) + [Digit(n % 10)];
    assert Digits(n / 10) == Digits(n / 100) + [Digit(n / 10 % 10)];
    assert Digits(n / 100) == Digits(n / 1000) + [Digit(n / 100 % 10)];
    assert n / 10 / 10 == n / 100 && n / 100 / 10 == n / 1000;
  }
}
