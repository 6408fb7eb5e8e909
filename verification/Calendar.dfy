/**
 * The proleptic Gregorian calendar on which a JavaScript `Date` counts (ECMA-262,
 * section 21.4.1). Days are numbered from 1 January 1970; months are numbered from 0.
 */
module Calendar {

  predicate IsLeap(y: int) {
    y % 4 == 0 && (y % 100 != 0 || y % 400 == 0)
  }

  function DaysInYear(y: int): int {
    if IsLeap(y) then 366 else 365
  }

  /** Day number of 1 January of year `y`, year by year from 1970. */
  function DayFromYear(y: int): int
    decreases if y >= 1970 then y - 1970 else 1970 - y
  {
    if y == 1970 then 0
    else if y > 1970 then DayFromYear(y - 1) + DaysInYear(y - 1)
    else DayFromYear(y + 1) - DaysInYear(y)
  }

  /** ECMA-262's closed formula for DayFromYear. */
  function FormulaDayFromYear(y: int): int {
    365 * (y - 1970) + (y - 1969) / 4 - (y - 1901) / 100 + (y - 1601) / 400
  }

  /** The year-by-year count is what the closed formula says, for every year. */
  lemma {:induction false} DayFromYearFormula(y: int)
    ensures DayFromYear(y) == FormulaDayFromYear(y)
    decreases if y >= 1970 then y - 1970 else 1970 - y
  {
    hide FormulaDayFromYear, IsLeap;
    if y == 1970 {
      assert FormulaDayFromYear(1970) == 0 by { FormulaAt1970(); }
    } else if y > 1970 {
      DayFromYearFormula(y - 1);
      FormulaStep(y - 1);
    } else {
      DayFromYearFormula(y + 1);
      FormulaStep(y);
    }
  }

  lemma FormulaAt1970()
    ensures FormulaDayFromYear(1970) == 0
  {
  }

  lemma FormulaStep(y: int)
    ensures FormulaDayFromYear(y + 1) == FormulaDayFromYear(y) + DaysInYear(y)
  {
    QuotientStep(y - 1969, 4);
    QuotientStep(y - 1901, 100);
    QuotientStep(y - 1601, 400);
  }

  lemma QuotientStep(a: int, n: int)
    requires n > 0
    ensures (a + 1) / n == if (a + 1) % n == 0 then a / n + 1 else a / n
  {
    var e := (a + 1) / n - a / n;
    assert n * e == 1 + a % n - (a + 1) % n;
    assert e >= 2 ==> n * e >= 2 * n;
    assert e <= -1 ==> n * e <= -n;
  }

  lemma {:induction false} YearsAscend(y: int, z: int)
    requires y <= z
    ensures DayFromYear(y) + 365 * (z - y) <= DayFromYear(z)
    decreases z - y
  {
    hide IsLeap;
    if y < z {
      YearsAscend(y, z - 1);
    }
  }

  /** The year of day `d`: the largest year whose first day is not after `d`. */
  function YearOf(d: int): (y: int)
    ensures DayFromYear(y) <= d < DayFromYear(y + 1)
  {
    if 0 <= d then YearUp(d, 1970) else YearDown(d, 1970)
  }

  function YearUp(d: int, y: int): (r: int)
    requires DayFromYear(y) <= d
    ensures DayFromYear(r) <= d < DayFromYear(r + 1)
    decreases d - DayFromYear(y)
  {
    YearsAscend(y, y + 1);
    if d < DayFromYear(y + 1) then y else YearUp(d, y + 1)
  }

  function YearDown(d: int, y: int): (r: int)
    requires d < DayFromYear(y)
    ensures DayFromYear(r) <= d < DayFromYear(r + 1)
    decreases DayFromYear(y) - d
  {
    YearsAscend(y - 1, y);
    if DayFromYear(y - 1) <= d then y - 1 else YearDown(d, y - 1)
  }

  lemma YearOfUnique(d: int, y: int)
    requires DayFromYear(y) <= d < DayFromYear(y + 1)
    ensures YearOf(d) == y
  {
    hide YearOf, DayFromYear;
    if YearOf(d) < y {
      YearsAscend(YearOf(d) + 1, y);
    } else if y < YearOf(d) {
      YearsAscend(y + 1, YearOf(d));
    }
  }

  /** Days of a year before month `m`, for `m` in 0..12. */
  function DaysBefore(m: int, leap: bool): int
    requires 0 <= m <= 12
  {
    var common := [0, 31, 59, 90, 120, 151, 181, 212, 243, 273, 304, 334, 365];
    common[m] + if leap && m >= 2 then 1 else 0
  }

  datatype RawMonth = Month(year: int, month: int)

  type Month = m: RawMonth | 0 <= m.month < 12 witness Month(1970, 0)

  /** A year and a month number that may run over either end of it. */
  function Carry(year: int, month: int): (m: Month)
    decreases if month < 0 then 12 - month else month
  {
    if month < 0 then Carry(year - 1, month + 12)
    else if month >= 12 then Carry(year + 1, month - 12)
    else Month(year, month)
  }

  function Next(m: Month): Month {
    Carry(m.year, m.month + 1)
  }

  function Previous(m: Month): Month {
    Carry(m.year, m.month - 1)
  }

  /** Day number of the first day of a month. */
  function FirstDay(m: Month): int {
    DayFromYear(m.year) + DaysBefore(m.month, IsLeap(m.year))
  }

  function DaysInMonth(m: Month): (days: nat)
    ensures 28 <= days <= 31
  {
    hide IsLeap;
    DaysBefore(m.month + 1, IsLeap(m.year)) - DaysBefore(m.month, IsLeap(m.year))
  }

  /** Thirty days have April, June, September and November, months counting from 0. */
  lemma MonthDays(m: Month)
    ensures DaysInMonth(m) == if m.month == 1 then (if IsLeap(m.year) then 29 else 28)
                              else if m.month in {3, 5, 8, 10} then 30 else 31
  {
  }

  /** A month ends where the next begins, and lasts 28 to 31 days. */
  lemma MonthLength(m: Month)
    ensures FirstDay(Next(m)) == FirstDay(m) + DaysInMonth(m)
    ensures Next(Previous(m)) == m && Previous(Next(m)) == m
  {
    hide IsLeap;
    if m.month == 11 {
      assert Next(m) == Month(m.year + 1, 0);
      assert DayFromYear(m.year + 1) == DayFromYear(m.year) + DaysInYear(m.year);
    }
  }

  function MonthFrom(y: int, d: int, from: int): (m: Month)
    requires 0 <= from < 12
    requires FirstDay(Month(y, from)) <= d < DayFromYear(y + 1)
    ensures m.year == y && FirstDay(m) <= d < FirstDay(Next(m))
    decreases 12 - from
  {
    hide IsLeap;
    MonthLength(Month(y, from));
    if d < FirstDay(Next(Month(y, from))) then Month(y, from) else MonthFrom(y, d, from + 1)
  }

  /** The month that day `d` falls in. */
  function MonthOf(d: int): (m: Month)
    ensures FirstDay(m) <= d < FirstDay(Next(m)) && m.year == YearOf(d)
  {
    MonthFrom(YearOf(d), d, 0)
  }

  /** Day of the month, counted from 1. */
  function DateOf(d: int): (date: int)
    ensures 1 <= date <= DaysInMonth(MonthOf(d))
  {
    MonthLength(MonthOf(d));
    d - FirstDay(MonthOf(d)) + 1
  }

  /** ECMA-262 MakeDay: months beyond a year and dates beyond a month carry over. */
  function MakeDay(year: int, month: int, date: int): int {
    FirstDay(Carry(year, month)) + date - 1
  }

  predicate Before(m: Month, n: Month) {
    m.year < n.year || (m.year == n.year && m.month < n.month)
  }

  lemma MonthsAscend(m: Month, n: Month)
    requires Before(m, n)
    ensures FirstDay(Next(m)) <= FirstDay(n)
  {
    hide IsLeap, DayFromYear;
    MonthLength(m);
    YearsAscend(m.year + 1, if m.year < n.year then n.year else m.year + 1);
    assert DayFromYear(m.year + 1) == FirstDay(Month(m.year, 11)) + 31 by {
      MonthLength(Month(m.year, 11));
      assert Next(Month(m.year, 11)) == Month(m.year + 1, 0);
    }
  }

  /** A day lies in a month exactly when it is on or after its first day and before the next one's. */
  lemma MonthOfUnique(d: int, m: Month)
    ensures MonthOf(d) == m <==> FirstDay(m) <= d < FirstDay(Next(m))
  {
    hide FirstDay, MonthOf, Next;
    if FirstDay(m) <= d < FirstDay(Next(m)) && MonthOf(d) != m {
      var o := MonthOf(d);
      if Before(o, m) {
        MonthsAscend(o, m);
      } else {
        MonthsAscend(m, o);
      }
    }
  }

  /** From a day to its date and back. */
  lemma CivilRoundTrip(d: int)
    ensures MakeDay(YearOf(d), MonthOf(d).month, DateOf(d)) == d
  {
    hide FirstDay;
  }

  /** From a valid date to its day and back: year, month and date are all recovered. */
  lemma DayRoundTrip(m: Month, date: int)
    requires 1 <= date <= DaysInMonth(m)
    ensures var d := MakeDay(m.year, m.month, date);
            YearOf(d) == m.year && MonthOf(d) == m && DateOf(d) == date
  {
    hide FirstDay, MonthOf, DaysInMonth;
    MonthLength(m);
    MonthOfUnique(MakeDay(m.year, m.month, date), m);
  }
}
