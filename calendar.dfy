/**
 * The proleptic Gregorian calendar of Python's `datetime`: day ordinals counted from
 * 0001-01-01 (ordinal 1) to 9999-12-31, and the conversion back from an ordinal to a date.
 */
module Calendar {

  /** The ordinal of 1899-12-30, the spreadsheet epoch (bankdownload.py's `EPOCH`). */
  const EpochOrdinal: int := 693594

  /** The ordinal of 9999-12-31, the last day `datetime` can represent. */
  const MaxOrdinal: int := 3652059

  datatype Date = Date(year: int, month: int, day: int)

  predicate IsLeap(y: int) {
    y % 4 == 0 && (y % 100 != 0 || y % 400 == 0)
  }

  function DaysInYear(y: int): int {
    if IsLeap(y) then 366 else 365
  }

  function DaysInMonth(y: int, m: int): int
    requires 1 <= m <= 12
  {
    if m == 2 then (if IsLeap(y) then 29 else 28)
    else if m == 4 || m == 6 || m == 9 || m == 11 then 30
    else 31
  }

  /** The days of year `y` before the first of month `m`. */
  function DaysBeforeMonth(y: int, m: int): int
    requires 1 <= m <= 12
  {
    [0, 31, 59, 90, 120, 151, 181, 212, 243, 273, 304, 334][m - 1]
      + (if m > 2 && IsLeap(y) then 1 else 0)
  }

  /** The days before January 1 of year `y`, in the closed form `datetime` uses. */
  function DaysBeforeYear(y: int): int {
    var y1 := y - 1;
    y1 * 365 + y1 / 4 - y1 / 100 + y1 / 400
  }

  /** A date `datetime` accepts. */
  predicate Valid(d: Date) {
    1 <= d.year <= 9999 && 1 <= d.month <= 12 && 1 <= d.day <= DaysInMonth(d.year, d.month)
  }

  /** `date.toordinal()`; defined for any day number so that April 1 of any year has an ordinal. */
  function Ordinal(d: Date): int
    requires 1 <= d.month <= 12
  {
    DaysBeforeYear(d.year) + DaysBeforeMonth(d.year, d.month) + d.day
  }

  /** The lexicographic order of dates, which `datetime` comparisons follow. */
  predicate Before(a: Date, b: Date) {
    a.year < b.year || (a.year == b.year && (a.month < b.month || (a.month == b.month && a.day < b.day)))
  }

  // ----- year and month arithmetic -----

  /** The two constants are the ordinals of the dates they name. */
  lemma EpochAndMaxOrdinals()
    ensures Valid(Date(1899, 12, 30)) && Ordinal(Date(1899, 12, 30)) == EpochOrdinal
    ensures Valid(Date(9999, 12, 31)) && Ordinal(Date(9999, 12, 31)) == MaxOrdinal
    ensures MaxOrdinal == DaysBeforeYear(10000)
  {
  }

  lemma DaysBeforeYearStep(y: int)
    ensures DaysBeforeYear(y + 1) == DaysBeforeYear(y) + DaysInYear(y)
  {
    var y1 := y - 1;
    assert y == y1 + 1;
    assert y / 4 == y1 / 4 + (if y % 4 == 0 then 1 else 0);
    assert y / 100 == y1 / 100 + (if y % 100 == 0 then 1 else 0);
    assert y / 400 == y1 / 400 + (if y % 400 == 0 then 1 else 0);
    assert y % 400 == 0 ==> y % 100 == 0;
    assert y % 100 == 0 ==> y % 4 == 0;
  }

  lemma {:induction false} DaysBeforeYearMonotone(a: int, b: int)
    requires a <= b
    ensures DaysBeforeYear(a) + 365 * (b - a) <= DaysBeforeYear(b)
    decreases b - a
  {
    if a < b {
      DaysBeforeYearStep(a);
      DaysBeforeYearMonotone(a + 1, b);
    }
  }

  lemma DaysBeforeMonthStep(y: int, m: int)
    requires 1 <= m < 12
    ensures DaysBeforeMonth(y, m + 1) == DaysBeforeMonth(y, m) + DaysInMonth(y, m)
  {
  }

  lemma DaysBeforeMonthLast(y: int)
    ensures DaysBeforeMonth(y, 12) + DaysInMonth(y, 12) == DaysInYear(y)
  {
  }

  /** The ordinals of a valid date's year are the interval after `DaysBeforeYear(year)`. */
  lemma OrdinalWithinYear(d: Date)
    requires Valid(d)
    ensures DaysBeforeYear(d.year) < Ordinal(d) <= DaysBeforeYear(d.year + 1)
  {
    DaysBeforeYearStep(d.year);
    var m := d.month;
    assert DaysBeforeMonth(d.year, m) + DaysInMonth(d.year, m) <= DaysInYear(d.year);
  }

  /** Dates order as their ordinals do. */
  lemma OrdinalMonotone(a: Date, b: Date)
    requires Valid(a) && Valid(b) && Before(a, b)
    ensures Ordinal(a) < Ordinal(b)
  {
    if a.year < b.year {
      OrdinalWithinYear(a);
      OrdinalWithinYear(b);
      DaysBeforeYearMonotone(a.year + 1, b.year);
    } else if a.month < b.month {
      MonthsMonotone(a.year, a.month, b.month);
    }
  }

  lemma {:induction false} MonthsMonotone(y: int, m: int, n: int)
    requires 1 <= m < n <= 12
    ensures DaysBeforeMonth(y, m) + DaysInMonth(y, m) <= DaysBeforeMonth(y, n)
    decreases n - m
  {
    DaysBeforeMonthStep(y, m);
    if m + 1 < n {
      MonthsMonotone(y, m + 1, n);
    }
  }

  // ----- from an ordinal back to a date -----

  /** The year whose days hold ordinal `n`, searched upwards from year `y`. */
  function YearSearch(n: int, y: int): (r: int)
    requires DaysBeforeYear(y) < n
    ensures y <= r && DaysBeforeYear(r) < n <= DaysBeforeYear(r + 1)
    decreases n - DaysBeforeYear(y)
  {
    DaysBeforeYearStep(y);
    if n <= DaysBeforeYear(y + 1) then y else YearSearch(n, y + 1)
  }

  /** The month holding day `r` of year `y`, searched upwards from month `m`. */
  function MonthSearch(y: int, r: int, m: int): (k: int)
    requires 1 <= m <= 12 && DaysBeforeMonth(y, m) < r <= DaysInYear(y)
    ensures m <= k <= 12
    ensures DaysBeforeMonth(y, k) < r <= DaysBeforeMonth(y, k) + DaysInMonth(y, k)
    decreases 12 - m
  {
    if m == 12 then
      DaysBeforeMonthLast(y);
      12
    else if r <= DaysBeforeMonth(y, m) + DaysInMonth(y, m) then m
    else
      DaysBeforeMonthStep(y, m);
      MonthSearch(y, r, m + 1)
  }

  /** `date.fromordinal(n)`: the only valid date whose ordinal is `n` (see `FromOrdinalOfOrdinal`). */
  function FromOrdinal(n: int): (d: Date)
    requires 1 <= n <= MaxOrdinal
    ensures Valid(d) && Ordinal(d) == n
  {
    var y := YearSearch(n, 1);
    assert y <= 9999 by {
      if y > 9999 {
        DaysBeforeYearMonotone(10000, y);
      }
    }
    DaysBeforeYearStep(y);
    var m := MonthSearch(y, n - DaysBeforeYear(y), 1);
    Date(y, m, n - DaysBeforeYear(y) - DaysBeforeMonth(y, m))
  }

  /** Every valid date has an ordinal in range, and converting it back gives the same date. */
  lemma FromOrdinalOfOrdinal(d: Date)
    requires Valid(d)
    ensures 1 <= Ordinal(d) <= MaxOrdinal
    ensures FromOrdinal(Ordinal(d)) == d
  {
    var n := Ordinal(d);
    OrdinalWithinYear(d);
    DaysBeforeYearMonotone(1, d.year);
    DaysBeforeYearMonotone(d.year + 1, 10000);
    var e := FromOrdinal(n);
    if Before(d, e) {
      OrdinalMonotone(d, e);
    } else if Before(e, d) {
      OrdinalMonotone(e, d);
    }
  }
}
