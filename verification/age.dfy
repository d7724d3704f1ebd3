/** The precise-age computation: a calendar breakdown (years, months, weeks,
    days) of the span from a birth date to today, cumulative totals of the
    elapsed milliseconds in days, hours and minutes, and the birth date's
    zodiac sign. "Today" is a parameter.
 */
module Age {
  import opened Calendar
  import opened JsMath
  import Zodiac

  const MsPerMinute := 1000 * 60
  const MsPerHour := 1000 * 60 * 60
  const MsPerDay := 1000 * 60 * 60 * 24

  datatype AgeResult = AgeResult(
    years: int,
    months: int,
    weeks: int,
    days: int,
    totalDays: int,
    totalHours: int,
    totalMinutes: int,
    zodiacSign: string)

  datatype Totals = Totals(days: int, hours: int, minutes: int)

  /** 1 when today's day-of-month is below the birth day-of-month, so a month
      has to be borrowed; 0 otherwise. */
  function Borrow(birth: Date, today: Date): int {
    if today.day - birth.day < 0 then 1 else 0
  }

  /** Whole months from birth to today, counted the way the breakdown counts
      them: month boundaries crossed, minus one if the day of month has not
      been reached yet. */
  function ElapsedMonths(birth: Date, today: Date): int {
    12 * (today.year - birth.year) + (today.month - birth.month) - Borrow(birth, today)
  }

  /** Years and months of the breakdown: subtract the fields, take a month
      away when the day count borrows, then take a year away (and give 12
      months back) when the month count is negative. */
  function YearsMonths(birth: Date, today: Date): (ym: (int, int))
    requires Valid(birth) && Valid(today)
    ensures 0 <= ym.1 <= 11
    ensures 12 * ym.0 + ym.1 == ElapsedMonths(birth, today)
    ensures ym.0 == today.year - birth.year
                    - (if today.month - birth.month - Borrow(birth, today) < 0 then 1 else 0)
  {
    var years := today.year - birth.year;
    var months := today.month - birth.month;
    var borrowed := if today.day - birth.day < 0 then months - 1 else months;
    if borrowed < 0 then (years - 1, borrowed + 12) else (years, borrowed)
  }

  /** The day count before it is split into weeks, as the program computes
      it: the day-of-month difference, plus the length of the month before
      today's month when that difference is negative. */
  function DayCount(birth: Date, today: Date): (c: int)
    requires Valid(birth) && Valid(today)
    ensures c + birth.day
            == today.day + Borrow(birth, today) * PrecedingMonthLength(today.year, today.month)
    ensures -2 <= c <= 30
    ensures c >= 0 <==> Borrow(birth, today) == 0
                        || birth.day <= today.day + PrecedingMonthLength(today.year, today.month)
  {
    var days := today.day - birth.day;
    if days < 0 then days + PrecedingMonthLength(today.year, today.month) else days
  }

  /** The day count with a count that borrowing leaves negative read as zero
      days: every count the program gets right is kept. */
  function ClampedDayCount(birth: Date, today: Date): (c: int)
    requires Valid(birth) && Valid(today)
    ensures 0 <= c <= 30
    ensures c == DayCount(birth, today) <==> DayCount(birth, today) >= 0
    ensures c >= DayCount(birth, today) && (c == 0 || c == DayCount(birth, today))
  {
    var days := DayCount(birth, today);
    if days < 0 then 0 else days
  }

  /** `Math.floor(count / 7)` weeks and `count % 7` remaining days. */
  function SplitWeeks(count: int): (wd: (int, int))
    ensures count >= 0 ==> wd.0 * 7 + wd.1 == count && 0 <= wd.1 <= 6
    ensures 0 <= count <= 34 ==> 0 <= wd.0 <= 4
    ensures -7 < count < 0 ==> wd == (-1, count)
  {
    (FloorDiv(count, 7), TruncRem(count, 7))
  }

  /** Totals of the absolute distance between the two instants: days rounded
      up, hours and minutes rounded down. */
  function ComputeTotals(birthMs: int, todayMs: int): (t: Totals)
    ensures var d := Abs(todayMs - birthMs);
            && t.days * MsPerDay - MsPerDay < d <= t.days * MsPerDay
            && t.hours * MsPerHour <= d < t.hours * MsPerHour + MsPerHour
            && t.minutes * MsPerMinute <= d < t.minutes * MsPerMinute + MsPerMinute
  {
    var diff := Abs(todayMs - birthMs);
    Totals(CeilDiv(diff, MsPerDay), FloorDiv(diff, MsPerHour), FloorDiv(diff, MsPerMinute))
  }

  /** Builds the result record from a day count. */
  function Assemble(birth: Moment, today: Moment, count: int): (r: AgeResult)
    requires Valid(birth.date) && Valid(today.date)
  {
    var (years, months) := YearsMonths(birth.date, today.date);
    var (weeks, days) := SplitWeeks(count);
    var t := ComputeTotals(birth.ms, today.ms);
    AgeResult(years, months, weeks, days, t.days, t.hours, t.minutes, Zodiac.ZodiacSign(birth.date))
  }

  /** The age as the program computes it. */
  function ComputeAge(birth: Moment, today: Moment): (r: AgeResult)
    requires Valid(birth.date) && Valid(today.date)
    ensures 0 <= r.months <= 11
    ensures 12 * r.years + r.months == ElapsedMonths(birth.date, today.date)
    ensures DayCount(birth.date, today.date) >= 0
            ==> r.weeks * 7 + r.days == DayCount(birth.date, today.date)
                && 0 <= r.weeks <= 4 && 0 <= r.days <= 6
    ensures DayCount(birth.date, today.date) < 0
            ==> r.weeks == -1 && r.days == DayCount(birth.date, today.date)
    ensures r.zodiacSign == Zodiac.SignByCusp(birth.date.month, birth.date.day)
    ensures Totals(r.totalDays, r.totalHours, r.totalMinutes) == ComputeTotals(birth.ms, today.ms)
  {
    Assemble(birth, today, DayCount(birth.date, today.date))
  }

  /** The age with the clamped day count: identical to `ComputeAge` except
      that a negative count becomes zero weeks and zero days. */
  function ComputeAgeClamped(birth: Moment, today: Moment): (r: AgeResult)
    requires Valid(birth.date) && Valid(today.date)
    ensures 0 <= r.months <= 11
    ensures 12 * r.years + r.months == ElapsedMonths(birth.date, today.date)
    ensures r.weeks * 7 + r.days == ClampedDayCount(birth.date, today.date)
    ensures 0 <= r.weeks <= 4 && 0 <= r.days <= 6
    ensures r.zodiacSign == Zodiac.SignByCusp(birth.date.month, birth.date.day)
    ensures Totals(r.totalDays, r.totalHours, r.totalMinutes) == ComputeTotals(birth.ms, today.ms)
  {
    Assemble(birth, today, ClampedDayCount(birth.date, today.date))
  }
}
