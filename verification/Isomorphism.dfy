/** The two calendars count the same days: conversion keeps the day number, is undone by the other direction,
    and keeps the order of dates. */
module Isomorphism {
  import opened CDate

  const LINEAR_OFFSET := 226900

  /** Both conversions keep the linear day, up to one fixed offset, for every integer year. */
  lemma ToJPreservesDay(a: Date)
    requires ValidDate(Gregorian, a)
    ensures Linear(Jalali, ToJ(a)) + LINEAR_OFFSET == Linear(Gregorian, a)
  {
    hide IsLeapYearG, IsLeapYearJ, Months, DaysBeforeMonth, DaysBeforeYear;
    YearSum(Gregorian, a.y);
    YearSum(Jalali, a.y - 621);
    YearSum(Jalali, a.y - 622);
    LeapYearsEveryFourth(a.y - 622);
  }

  lemma ToGPreservesDay(a: Date)
    requires ValidDate(Jalali, a)
    ensures Linear(Gregorian, ToG(a)) == Linear(Jalali, a) + LINEAR_OFFSET
  {
    hide IsLeapYearG, IsLeapYearJ, Months, DaysBeforeMonth, DaysBeforeYear;
    YearSum(Jalali, a.y);
    YearSum(Gregorian, a.y + 621);
    YearSum(Gregorian, a.y + 622);
    LeapYearsEveryFourth(a.y);
    LeapYearsEveryFourth(a.y + 621);
  }

  /** The conversions are inverse bijections between the valid dates of the two calendars. */
  lemma RoundTripG(a: Date)
    requires ValidDate(Gregorian, a)
    ensures ToG(ToJ(a)) == a
  {
    ToJPreservesDay(a);
    ToGPreservesDay(ToJ(a));
    LinearIsMonotone(Gregorian, ToG(ToJ(a)), a);
  }

  lemma RoundTripJ(a: Date)
    requires ValidDate(Jalali, a)
    ensures ToJ(ToG(a)) == a
  {
    ToGPreservesDay(a);
    ToJPreservesDay(ToG(a));
    LinearIsMonotone(Jalali, ToJ(ToG(a)), a);
  }

  /** Conversion is strictly monotone and maps consecutive days to consecutive days, both ways. */
  lemma OrderIsomorphism(a: Date, b: Date)
    requires ValidDate(Gregorian, a) && ValidDate(Gregorian, b)
    ensures Before(a, b) <==> Before(ToJ(a), ToJ(b))
    ensures b == Next(Gregorian, a) <==> ToJ(b) == Next(Jalali, ToJ(a))
  {
    ToJPreservesDay(a);
    ToJPreservesDay(b);
    LinearIsMonotone(Gregorian, a, b);
    LinearIsMonotone(Jalali, ToJ(a), ToJ(b));
    NextIsSuccessor(Gregorian, a);
    NextIsSuccessor(Jalali, ToJ(a));
    LinearIsMonotone(Gregorian, b, Next(Gregorian, a));
    LinearIsMonotone(Jalali, ToJ(b), Next(Jalali, ToJ(a)));
  }

  lemma OrderIsomorphismBack(a: Date, b: Date)
    requires ValidDate(Jalali, a) && ValidDate(Jalali, b)
    ensures Before(a, b) <==> Before(ToG(a), ToG(b))
    ensures b == Next(Jalali, a) <==> ToG(b) == Next(Gregorian, ToG(a))
  {
    RoundTripJ(a);
    RoundTripJ(b);
    OrderIsomorphism(ToG(a), ToG(b));
  }
}
