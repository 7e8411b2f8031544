/** Calendar dates as the ledger sees them: a (year, month, day) value that
    is only ever compared. The ordering is the one Python's `datetime.date`
    uses, field by field from the year down. */
module Dates {

  datatype Date = Date(year: int, month: int, day: int)

  const MinYear: int := 1
  const MaxYear: int := 9999

  predicate IsLeapYear(y: int) {
    y % 4 == 0 && (y % 100 != 0 || y % 400 == 0)
  }

  function DaysInMonth(y: int, m: int): (n: int)
    requires 1 <= m <= 12
    ensures 28 <= n <= 31
    ensures m == 2 ==> (n == 29 <==> IsLeapYear(y))
  {
    if m == 2 then (if IsLeapYear(y) then 29 else 28)
    else if m == 4 || m == 6 || m == 9 || m == 11 then 30
    else 31
  }

  /** The dates a `datetime.date` can hold. */
  predicate Valid(d: Date) {
    && MinYear <= d.year <= MaxYear
    && 1 <= d.month <= 12
    && 1 <= d.day <= DaysInMonth(d.year, d.month)
  }

  /** `a` falls strictly after `b`. */
  predicate After(a: Date, b: Date) {
    || a.year > b.year
    || (a.year == b.year && a.month > b.month)
    || (a.year == b.year && a.month == b.month && a.day > b.day)
  }

  /** An independent reading of the order: pack the fields into one number,
      year in the high part, month in the middle, day in the low byte, and
      compare the numbers. */
  function Packed(d: Date): int {
    d.year * 65536 + d.month * 256 + d.day
  }

  lemma AfterTransitive(a: Date, b: Date, c: Date)
    requires After(a, b) && After(b, c)
    ensures After(a, c)
  {
  }

  /** Any two distinct dates are ordered one way or the other, and never both. */
  lemma AfterTrichotomy(a: Date, b: Date)
    ensures a == b || After(a, b) || After(b, a)
    ensures !(After(a, b) && After(b, a))
  {
  }

  /** On valid dates the field-by-field order and the packed-number order agree. */
  lemma AfterIffPackedGreater(a: Date, b: Date)
    requires Valid(a) && Valid(b)
    ensures After(a, b) <==> Packed(a) > Packed(b)
  {
    if a.year > b.year {
      assert a.month * 256 + a.day - (b.month * 256 + b.day) > -65536;
    } else if a.year < b.year {
      assert b.month * 256 + b.day - (a.month * 256 + a.day) > -65536;
    } else if a.month != b.month {
      assert -256 < a.day - b.day < 256;
    }
  }
}
