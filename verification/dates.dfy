/**
 Proleptic Gregorian calendar dates, their order, and the year subtraction
 `date - relativedelta(years=n)` the age checks use.
 */
module Dates {

  datatype Date = Date(year: int, month: int, day: int)

  predicate IsLeapYear(y: int) {
    (y % 4 == 0 && y % 100 != 0) || y % 400 == 0
  }

  function DaysInMonth(y: int, m: int): (n: int)
    ensures 28 <= n <= 31
  {
    if m == 2 then (if IsLeapYear(y) then 29 else 28)
    else if m == 4 || m == 6 || m == 9 || m == 11 then 30
    else 31
  }

  predicate Valid(d: Date) {
    1 <= d.month <= 12 && 1 <= d.day <= DaysInMonth(d.year, d.month)
  }

  /** Chronological order, `a < b` on Python dates. */
  predicate Before(a: Date, b: Date) {
    a.year < b.year
    || (a.year == b.year && a.month < b.month)
    || (a.year == b.year && a.month == b.month && a.day < b.day)
  }

  /** `a <= b` on Python dates. */
  predicate NotAfter(a: Date, b: Date) {
    a == b || Before(a, b)
  }

  /** `d - relativedelta(years=n)`: the same month and day `n` years earlier,
      with the day clamped to the length of that month (29 February becomes
      28 February in a common year). */
  function MinusYears(d: Date, n: int): (r: Date)
    ensures r.year == d.year - n && r.month == d.month
    ensures Valid(d) ==> Valid(r)
    ensures Valid(d) ==> r.day == d.day || (d.month == 2 && d.day == 29 && r.day == 28 && !IsLeapYear(r.year))
  {
    var y := d.year - n;
    var last := DaysInMonth(y, d.month);
    Date(y, d.month, if d.day > last then last else d.day)
  }

  /** Going back further lands no later. */
  lemma MinusYearsAntitone(d: Date, m: int, n: int)
    requires m <= n
    ensures NotAfter(MinusYears(d, n), MinusYears(d, m))
  {
  }

  /** Going back a non-negative number of years never passes `d`. */
  lemma MinusYearsNotAfter(d: Date, n: int)
    requires Valid(d) && n >= 0
    ensures NotAfter(MinusYears(d, n), d)
  {
  }

  lemma NotAfterTransitive(a: Date, b: Date, c: Date)
    requires NotAfter(a, b) && NotAfter(b, c)
    ensures NotAfter(a, c)
  {
  }

  /** The order is total: of two dates one is not after the other. */
  lemma NotAfterTotal(a: Date, b: Date)
    ensures NotAfter(a, b) || NotAfter(b, a)
    ensures NotAfter(a, b) && NotAfter(b, a) ==> a == b
    ensures !NotAfter(a, b) <==> Before(b, a)
  {
  }
}
