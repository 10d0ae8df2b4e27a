/**
 * The month clock of the production model: time step t (counted from 1)
 * is the first day of the t-th month from the start date.
 */
module ModelClock {
  import opened Wrappers

  datatype Date = Date(year: int, month: int, day: int)

  /** The largest year a calendar date can carry. */
  const MaxYear: int := 9999

  /** The date constructor's complaints; it checks the year before the month. */
  const YearOutOfRange: string := "ValueError: year is out of range"
  const MonthOutOfRange: string := "ValueError: month must be in 1..12"

  /** A start date the calendar accepts (its day plays no part). */
  predicate ValidStart(startYear: int, startMonth: int)
  {
    1 <= startYear <= MaxYear && 1 <= startMonth <= 12
  }

  /**
   * `calc_currentdate`: the month index runs on from the start month and
   * wraps past December at most once, adding a year; a month still past
   * December, or a year past the calendar's last, is rejected with a
   * ValueError by the date constructor, the year being checked first.
   */
  function CurrentDate(startYear: int, startMonth: int, step: nat): (r: Result<Date, string>)
    requires ValidStart(startYear, startMonth) && step >= 1
    ensures r.Success? <==> startMonth + step - 1 <= 24 && (startMonth + step - 1 <= 12 || startYear < MaxYear)
    ensures r.Success? ==> r.value.day == 1 && 1 <= r.value.month <= 12
    ensures r.Success? ==> 12 * (r.value.year - startYear) + r.value.month - startMonth == step - 1
    ensures r == Failure(YearOutOfRange) <==> startMonth + step - 1 > 12 && startYear == MaxYear
    ensures r == Failure(MonthOutOfRange) <==> startMonth + step - 1 > 24 && startYear < MaxYear
  {
    var month := startMonth + step - 1;
    var year := if month > 12 then startYear + 1 else startYear;
    var month' := if month > 12 then month - 12 else month;
    if year > MaxYear then Failure(YearOutOfRange)
    else if month' > 12 then Failure(MonthOutOfRange)
    else Success(Date(year, month', 1))
  }

  /** The driver's run, twelve months from January 1990, stays within 1990. */
  lemma DriverRunWithinYear(step: nat)
    requires 1 <= step <= 12
    ensures CurrentDate(1990, 1, step) == Success(Date(1990, step, 1))
  {
  }
}
