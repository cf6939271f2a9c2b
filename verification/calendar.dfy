/**
 * The proleptic Gregorian calendar as the program's `date` values use it:
 * validity, the day-by-day successor (`date += timedelta(days=1)`), the
 * lexicographic comparison (`<=` on dates) and the walk over an inclusive
 * range of dates.
 */
module Calendar {

  /** A calendar date without a time component. */
  datatype Date = Date(year: int, month: int, day: int)

  predicate IsLeapYear(y: int) {
    y % 4 == 0 && (y % 100 != 0 || y % 400 == 0)
  }

  function YearLength(y: int): int {
    if IsLeapYear(y) then 366 else 365
  }

  function DaysInMonth(y: int, m: int): (n: int)
    requires 1 <= m <= 12
    ensures 28 <= n <= 31
  {
    if m == 2 then (if IsLeapYear(y) then 29 else 28)
    else if m == 4 || m == 6 || m == 9 || m == 11 then 30
    else 31
  }

  /** Years start at 1, as in Python's `date`; there is no upper bound here. */
  predicate Valid(d: Date) {
    && 1 <= d.year
    && 1 <= d.month <= 12
    && 1 <= d.day <= DaysInMonth(d.year, d.month)
  }

  /** Days of year `y` that lie before the first of month `m` (13 means the whole year). */
  function DaysBeforeMonth(y: int, m: int): nat
    requires 1 <= m <= 13
  {
    if m == 1 then 0 else DaysBeforeMonth(y, m - 1) + DaysInMonth(y, m - 1)
  }

  /** Days from 0001-01-01 up to the first of January of year `y`. */
  function DaysBeforeYear(y: int): nat
    requires 1 <= y
  {
    if y == 1 then 0 else DaysBeforeYear(y - 1) + YearLength(y - 1)
  }

  /** Day number of a date, 1 for 0001-01-01 (Python's `date.toordinal`). */
  function Ordinal(d: Date): int
    requires Valid(d)
  {
    DaysBeforeYear(d.year) + DaysBeforeMonth(d.year, d.month) + d.day
  }

  /** Strict date order: `a < b` on Python dates compares (year, month, day). */
  predicate Before(a: Date, b: Date)
    ensures Before(a, b) ==> a != b && a.year <= b.year
  {
    || a.year < b.year
    || (a.year == b.year && a.month < b.month)
    || (a.year == b.year && a.month == b.month && a.day < b.day)
  }

  /** `a <= b` on dates: the order is total, so it holds exactly when `b < a` does not. */
  predicate AtOrBefore(a: Date, b: Date)
    ensures AtOrBefore(a, b) <==> !Before(b, a)
  {
    Before(a, b) || a == b
  }

  /** `<` on dates is a strict total order: irreflexive, asymmetric, transitive and total. */
  lemma BeforeIsStrictTotalOrder(a: Date, b: Date, c: Date)
    ensures !Before(a, a)
    ensures Before(a, b) ==> !Before(b, a)
    ensures Before(a, b) && Before(b, c) ==> Before(a, c)
    ensures a == b || Before(a, b) || Before(b, a)
  {
  }

  /** The date one day later. */
  function Next(d: Date): (r: Date)
    requires Valid(d)
    ensures Valid(r)
    ensures Before(d, r)
    ensures Ordinal(r) == Ordinal(d) + 1
  {
    if d.day < DaysInMonth(d.year, d.month) then Date(d.year, d.month, d.day + 1)
    else if d.month < 12 then Date(d.year, d.month + 1, 1)
    else
      YearEndLength(d.year);
      Date(d.year + 1, 1, 1)
  }

  lemma {:induction false} DaysBeforeMonthGrows(y: int, m1: int, m2: int)
    requires 1 <= m1 <= m2 <= 13
    ensures DaysBeforeMonth(y, m1) <= DaysBeforeMonth(y, m2)
    ensures m1 < m2 ==> DaysBeforeMonth(y, m1) + DaysInMonth(y, m1) <= DaysBeforeMonth(y, m2)
    decreases m2 - m1
  {
    if m1 < m2 {
      DaysBeforeMonthGrows(y, m1, m2 - 1);
    }
  }

  /** The twelve months add up to the length of the year. */
  lemma YearEndLength(y: int)
    ensures DaysBeforeMonth(y, 13) == YearLength(y)
  {
    assert DaysBeforeMonth(y, 2) == 31;
    assert DaysBeforeMonth(y, 3) == 31 + DaysInMonth(y, 2);
    assert DaysBeforeMonth(y, 4) == DaysBeforeMonth(y, 3) + 31;
    assert DaysBeforeMonth(y, 5) == DaysBeforeMonth(y, 3) + 61;
    assert DaysBeforeMonth(y, 6) == DaysBeforeMonth(y, 3) + 92;
    assert DaysBeforeMonth(y, 7) == DaysBeforeMonth(y, 3) + 122;
    assert DaysBeforeMonth(y, 8) == DaysBeforeMonth(y, 3) + 153;
    assert DaysBeforeMonth(y, 9) == DaysBeforeMonth(y, 3) + 184;
    assert DaysBeforeMonth(y, 10) == DaysBeforeMonth(y, 3) + 214;
    assert DaysBeforeMonth(y, 11) == DaysBeforeMonth(y, 3) + 245;
    assert DaysBeforeMonth(y, 12) == DaysBeforeMonth(y, 3) + 275;
  }

  lemma {:induction false} DaysBeforeYearGrows(y1: int, y2: int)
    requires 1 <= y1 < y2
    ensures DaysBeforeYear(y1) + YearLength(y1) <= DaysBeforeYear(y2)
    decreases y2 - y1
  {
    if y1 + 1 < y2 {
      DaysBeforeYearGrows(y1, y2 - 1);
    }
  }

  /** A valid date's day number lies within its year's block of day numbers. */
  lemma OrdinalWithinYear(d: Date)
    requires Valid(d)
    ensures DaysBeforeYear(d.year) < Ordinal(d) <= DaysBeforeYear(d.year) + YearLength(d.year)
  {
    DaysBeforeMonthGrows(d.year, d.month, 13);
    YearEndLength(d.year);
  }

  /** The day number orders valid dates exactly as the calendar comparison does. */
  lemma OrdinalOrder(a: Date, b: Date)
    requires Valid(a) && Valid(b)
    ensures Before(a, b) <==> Ordinal(a) < Ordinal(b)
  {
    if a.year < b.year {
      OrdinalWithinYear(a);
      OrdinalWithinYear(b);
      DaysBeforeYearGrows(a.year, b.year);
    } else if b.year < a.year {
      OrdinalWithinYear(a);
      OrdinalWithinYear(b);
      DaysBeforeYearGrows(b.year, a.year);
    } else if a.month < b.month {
      DaysBeforeMonthGrows(a.year, a.month, b.month);
    } else if b.month < a.month {
      DaysBeforeMonthGrows(a.year, b.month, a.month);
    }
  }

  /** Distinct valid dates have distinct day numbers. */
  lemma OrdinalInjective(a: Date, b: Date)
    requires Valid(a) && Valid(b)
    requires Ordinal(a) == Ordinal(b)
    ensures a == b
  {
    OrdinalOrder(a, b);
    OrdinalOrder(b, a);
  }

  /** No valid date lies strictly between a date and its successor. */
  lemma NextIsImmediate(d: Date, e: Date)
    requires Valid(d) && Valid(e)
    ensures !(Before(d, e) && Before(e, Next(d)))
  {
    OrdinalOrder(d, e);
    OrdinalOrder(e, Next(d));
  }

  /**
   * Every date from `s` through `e`, one day at a time: the sequence of
   * values `current_date` takes in `while current_date <= end_date`.
   */
  function DatesFrom(s: Date, e: Date): (r: seq<Date>)
    requires Valid(s) && Valid(e)
    ensures AtOrBefore(s, e) ==> |r| == Ordinal(e) - Ordinal(s) + 1
    ensures !AtOrBefore(s, e) ==> r == []
    ensures forall i :: 0 <= i < |r| ==> Valid(r[i]) && Ordinal(r[i]) == Ordinal(s) + i
    decreases Ordinal(e) - Ordinal(s)
  {
    OrdinalOrder(s, e);
    if AtOrBefore(s, e) then [s] + DatesFrom(Next(s), e) else []
  }

  /** A walk over a non-empty range starts with its first date and continues from the next day. */
  lemma DatesFromFirst(s: Date, e: Date)
    requires Valid(s) && Valid(e) && AtOrBefore(s, e)
    ensures DatesFrom(s, e) == [s] + DatesFrom(Next(s), e)
  {
  }

  /** Everything the walk visits lies in the inclusive range. */
  lemma DatesFromWithinRange(s: Date, e: Date, d: Date)
    requires Valid(s) && Valid(e)
    requires d in DatesFrom(s, e)
    ensures Valid(d) && AtOrBefore(s, d) && AtOrBefore(d, e)
  {
    var r := DatesFrom(s, e);
    var i :| 0 <= i < |r| && r[i] == d;
    assert Ordinal(s) <= Ordinal(d) <= Ordinal(e) by {
      OrdinalOrder(s, e);
    }
    OrdinalOrder(s, d);
    OrdinalOrder(d, e);
    if Ordinal(s) == Ordinal(d) {
      OrdinalInjective(s, d);
    }
    if Ordinal(d) == Ordinal(e) {
      OrdinalInjective(d, e);
    }
  }

  /** Every date of the inclusive range is visited by the walk. */
  lemma DatesFromCoversRange(s: Date, e: Date, d: Date)
    requires Valid(s) && Valid(e)
    requires Valid(d) && AtOrBefore(s, d) && AtOrBefore(d, e)
    ensures d in DatesFrom(s, e)
  {
    var r := DatesFrom(s, e);
    OrdinalOrder(s, d);
    OrdinalOrder(d, e);
    assert AtOrBefore(s, e) by {
      OrdinalOrder(s, e);
    }
    var i := Ordinal(d) - Ordinal(s);
    assert 0 <= i < |r|;
    OrdinalInjective(r[i], d);
  }

  /** A date is visited by the walk exactly when it lies in the inclusive range. */
  lemma DatesFromMembers(s: Date, e: Date, d: Date)
    requires Valid(s) && Valid(e)
    ensures d in DatesFrom(s, e) <==> Valid(d) && AtOrBefore(s, d) && AtOrBefore(d, e)
  {
    if d in DatesFrom(s, e) {
      DatesFromWithinRange(s, e, d);
    }
    if Valid(d) && AtOrBefore(s, d) && AtOrBefore(d, e) {
      DatesFromCoversRange(s, e, d);
    }
  }

  /** The walk visits dates in strictly ascending order, hence each at most once. */
  lemma DatesFromAscending(s: Date, e: Date)
    requires Valid(s) && Valid(e)
    ensures forall i, j :: 0 <= i < j < |DatesFrom(s, e)| ==> Before(DatesFrom(s, e)[i], DatesFrom(s, e)[j])
  {
    var r := DatesFrom(s, e);
    forall i, j | 0 <= i < j < |r|
      ensures Before(r[i], r[j])
    {
      OrdinalOrder(r[i], r[j]);
    }
  }

  /** Every date of year `y`, from January 1 to December 31. */
  function YearDates(y: int): (r: seq<Date>)
    requires 1 <= y
    ensures |r| == YearLength(y)
    ensures r[0] == Date(y, 1, 1) && r[|r| - 1] == Date(y, 12, 31)
  {
    YearEndLength(y);
    var r := DatesFrom(Date(y, 1, 1), Date(y, 12, 31));
    assert Ordinal(r[|r| - 1]) == Ordinal(Date(y, 12, 31));
    OrdinalInjective(r[|r| - 1], Date(y, 12, 31));
    r
  }

  /** The walk over a year has one entry per day of that year. */
  lemma YearDatesLength(y: int)
    requires 1 <= y
    ensures |YearDates(y)| == YearLength(y)
  {
    YearEndLength(y);
  }

  /** A date is in the year's walk exactly when it is a valid date of that year. */
  lemma YearDatesMembers(y: int, d: Date)
    requires 1 <= y
    ensures d in YearDates(y) <==> Valid(d) && d.year == y
  {
    DatesFromMembers(Date(y, 1, 1), Date(y, 12, 31), d);
  }

  /** Strictly ascending sequences of dates, the shape of every date column here. */
  predicate StrictlyAscending(ds: seq<Date>) {
    forall i, j :: 0 <= i < j < |ds| ==> Before(ds[i], ds[j])
  }

  lemma YearDatesAscending(y: int)
    requires 1 <= y
    ensures StrictlyAscending(YearDates(y))
  {
    DatesFromAscending(Date(y, 1, 1), Date(y, 12, 31));
  }
}
