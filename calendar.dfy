/** The month-length constant PERIOD_D of nh_claim.py: the day before the first
    day of PERIOD's next month, where "next month" is `month % 12 + 1` in the
    SAME year. Dates follow Python's `datetime.date`: the proleptic Gregorian
    calendar, years 1 to 9999. */
module Calendar {
  import opened Wrappers

  datatype Date = Date(year: int, month: int, day: int)

  predicate IsLeap(year: int) {
    year % 4 == 0 && (year % 100 != 0 || year % 400 == 0)
  }

  /** Days in `month` of `year` in the Gregorian calendar. */
  function MonthLength(year: int, month: int): (n: int)
    requires 1 <= month <= 12
    ensures 28 <= n <= 31
    ensures n == 28 || n == 29 ==> month == 2
    ensures month == 2 ==> (n == 29 <==> IsLeap(year))
  {
    if month == 2 then (if IsLeap(year) then 29 else 28)
    else if month == 4 || month == 6 || month == 9 || month == 11 then 30
    else 31
  }

  predicate ValidDate(d: Date) {
    1 <= d.year <= 9999 && 1 <= d.month <= 12 && 1 <= d.day <= MonthLength(d.year, d.month)
  }

  /** `d - timedelta(days=1)`; None where Python raises OverflowError
      (the day before 0001-01-01). */
  function PrevDay(d: Date): Option<Date>
    requires ValidDate(d)
  {
    if d.day > 1 then Some(Date(d.year, d.month, d.day - 1))
    else if d.month > 1 then Some(Date(d.year, d.month - 1, MonthLength(d.year, d.month - 1)))
    else if d.year > 1 then Some(Date(d.year - 1, 12, 31))
    else None
  }

  /** `d + timedelta(days=1)`; None past 9999-12-31. */
  function NextDay(d: Date): Option<Date>
    requires ValidDate(d)
  {
    if d.day < MonthLength(d.year, d.month) then Some(Date(d.year, d.month, d.day + 1))
    else if d.month < 12 then Some(Date(d.year, d.month + 1, 1))
    else if d.year < 9999 then Some(Date(d.year + 1, 1, 1))
    else None
  }

  /** PrevDay and NextDay are inverse steps on valid dates, so PrevDay is the
      calendar's predecessor. */
  lemma PrevNextInverse(d: Date)
    requires ValidDate(d)
    ensures PrevDay(d).Some? ==> ValidDate(PrevDay(d).value) && NextDay(PrevDay(d).value) == Some(d)
    ensures NextDay(d).Some? ==> ValidDate(NextDay(d).value) && PrevDay(NextDay(d).value) == Some(d)
  {
  }

  const DATE_OVERFLOW := "date value out of range"

  /** PERIOD_D for a PERIOD in `year`/`month`:
      `PERIOD.replace(month=PERIOD.month % 12 + 1, day=1) - timedelta(days=1)`. */
  function PeriodEnd(year: int, month: int): Result<Date>
    requires 1 <= year <= 9999 && 1 <= month <= 12
  {
    var first := Date(year, month % 12 + 1, 1);
    match PrevDay(first)
    case None => Err(DATE_OVERFLOW)
    case Some(d) => Ok(d)
  }

  /** PERIOD_D.day is the length of PERIOD's month (28 to 31, February 29 exactly
      in leap years), December included: there the replace wraps to January of
      the same year, the subtraction lands on December 31 of the year before,
      and its day is still 31. Only December of year 1 overflows. */
  lemma PeriodEndDay(year: int, month: int)
    requires 1 <= year <= 9999 && 1 <= month <= 12
    ensures PeriodEnd(year, month).Err? <==> year == 1 && month == 12
    ensures PeriodEnd(year, month).Ok? ==>
      var d := PeriodEnd(year, month).value;
      && ValidDate(d)
      && d.day == MonthLength(year, month)
      && d.month == month
      && d.year == (if month == 12 then year - 1 else year)
      && NextDay(d) == Some(Date(year, month % 12 + 1, 1))
  {
  }

  /** `PERIOD_D.day`, the day count the status text shows: the length of
      PERIOD's month, or the OverflowError text for December of year 1, where
      computing PERIOD_D fails before `main` runs. */
  function PeriodDays(year: int, month: int): (r: Result<nat>)
    requires 1 <= year <= 9999 && 1 <= month <= 12
    ensures r.Err? <==> year == 1 && month == 12
    ensures r.Err? ==> r.error == DATE_OVERFLOW
    ensures r.Ok? ==> r.value == MonthLength(year, month)
  {
    PeriodEndDay(year, month);
    match PeriodEnd(year, month)
    case Err(e) => Err(e)
    case Ok(d) => Ok(d.day)
  }
}
