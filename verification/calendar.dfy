/** Calendar dates as the JavaScript `Date` object exposes them through
    `getFullYear()`, `getMonth()` and `getDate()`, on the proleptic Gregorian
    calendar. Months are numbered 1..12 here; `getMonth()` numbers them 0..11.
 */
module Calendar {

  /** Proleptic Gregorian leap-year rule (Dafny's `%` is Euclidean, so this is
      also right for years before 1). */
  predicate IsLeapYear(year: int) {
    year % 4 == 0 && (year % 100 != 0 || year % 400 == 0)
  }

  /** Number of days in `month` of `year`. */
  function DaysInMonth(year: int, month: int): (n: int)
    requires 1 <= month <= 12
    ensures 28 <= n <= 31
    ensures n == 28 <==> month == 2 && !IsLeapYear(year)
    ensures n == 29 <==> month == 2 && IsLeapYear(year)
    ensures n == 30 <==> month == 4 || month == 6 || month == 9 || month == 11
  {
    if month == 2 then (if IsLeapYear(year) then 29 else 28)
    else if month == 4 || month == 6 || month == 9 || month == 11 then 30
    else 31
  }

  /** A calendar date; `month` is 1-based. */
  datatype Date = Date(year: int, month: int, day: int)

  /** Every `Date` object denotes a real calendar day. */
  predicate Valid(d: Date) {
    1 <= d.month <= 12 && 1 <= d.day <= DaysInMonth(d.year, d.month)
  }

  /** `new Date(year, month - 1, 0).getDate()`: day 0 of a month is the last
      day of the month before it, so this is the length of the month that
      precedes `month`; for January that is December of the previous year. */
  function PrecedingMonthLength(year: int, month: int): (n: int)
    requires 1 <= month <= 12
    ensures var last := if month == 1 then Date(year - 1, 12, n) else Date(year, month - 1, n);
            Valid(last) && NextDay(last) == Date(year, month, 1)
  {
    if month == 1 then DaysInMonth(year - 1, 12) else DaysInMonth(year, month - 1)
  }

  /** Chronological order of calendar dates. */
  predicate NotAfter(a: Date, b: Date) {
    a.year < b.year
    || (a.year == b.year && a.month < b.month)
    || (a.year == b.year && a.month == b.month && a.day <= b.day)
  }

  /** The calendar day after `d`. */
  function NextDay(d: Date): (r: Date)
    requires Valid(d)
    ensures Valid(r)
    ensures NotAfter(d, r) && r != d
    ensures r.day == 1 <==> d.day == DaysInMonth(d.year, d.month)
    ensures r.day != 1 ==> r.year == d.year && r.month == d.month && r.day == d.day + 1
  {
    if d.day < DaysInMonth(d.year, d.month) then Date(d.year, d.month, d.day + 1)
    else if d.month < 12 then Date(d.year, d.month + 1, 1)
    else Date(d.year + 1, 1, 1)
  }

  /** The calendar day `k` days after `d`. */
  function AddDays(d: Date, k: nat): (r: Date)
    requires Valid(d)
    ensures Valid(r)
    decreases k
  {
    if k == 0 then d else AddDays(NextDay(d), k - 1)
  }

  /** A point in time as the program holds it: the local calendar date read
      from a `Date` object, and its `getTime()` value in milliseconds. */
  datatype Moment = Moment(date: Date, ms: int)
}
