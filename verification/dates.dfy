/** Calendar dates as the catalogue compares them: a `date` is ordered by
    year, then month, then day. */
module Dates {

  datatype Date = Date(year: int, month: int, day: int)

  /** `a` is strictly earlier than `b`. */
  predicate Before(a: Date, b: Date) {
    a.year < b.year
    || (a.year == b.year && a.month < b.month)
    || (a.year == b.year && a.month == b.month && a.day < b.day)
  }

  /** Two distinct dates are always ordered one way or the other, and never both. */
  lemma BeforeStrictTotal(a: Date, b: Date)
    ensures !(Before(a, b) && Before(b, a))
    ensures a != b ==> Before(a, b) || Before(b, a)
    ensures !Before(a, a)
  {
  }

  lemma BeforeTransitive(a: Date, b: Date, c: Date)
    requires Before(a, b) && Before(b, c)
    ensures Before(a, c)
  {
  }
}
