/** The proleptic Gregorian calendar, months numbered through as year * 12 + month - 1. */
module Calendar {

  predicate IsLeap(year: int) { year % 4 == 0 && (year % 100 != 0 || year % 400 == 0) }

  /** calendar.monthrange(year, month)[1]. */
  function DaysIn(index: int): (n: nat)
    ensures 28 <= n <= 31
  {
    var month := index % 12 + 1;
    if month == 2 then (if IsLeap(index / 12) then 29 else 28)
    else if month in {4, 6, 9, 11} then 30
    else 31
  }

  /** The lengths of a year's months, by the Gregorian rule. */
  lemma MonthLengths(year: nat, k: nat)
    requires k < 12
    ensures var february := if year % 4 == 0 && (year % 100 != 0 || year % 400 == 0) then 29 else 28;
            DaysIn(12 * year + k) == [31, february, 31, 30, 31, 30, 31, 31, 30, 31, 30, 31][k]
  {
    assert (12 * year + k) % 12 == k && (12 * year + k) / 12 == year;
  }

  /** January of year 1, the first month a datetime can hold. */
  const FIRST_MONTH := 12

  /** A day and the second within it. */
  datatype Moment = Moment(index: int, day: nat, second: nat) {
    predicate Valid() { index >= FIRST_MONTH && 1 <= day <= DaysIn(index) && second < 86400 }

    /** No later than. */
    predicate NotAfter(other: Moment) {
      || index < other.index
      || (index == other.index && (day < other.day || (day == other.day && second <= other.second)))
    }

    predicate DateNotAfter(other: Moment) {
      index < other.index || (index == other.index && day <= other.day)
    }
  }
}
