/** Properties of the age computation that relate several calls or fix
    concrete values. */
module AgeProperties {
  import opened Calendar
  import opened JsMath
  import opened Age

  /** Lexicographic order on the (years, months) part of two results. */
  predicate YearsMonthsNotAfter(a: AgeResult, b: AgeResult) {
    a.years < b.years || (a.years == b.years && a.months <= b.months)
  }

  /** A birth date that is not after today gives a non-negative number of
      years. */
  lemma YearsNonNegative(birth: Moment, today: Moment)
    requires Valid(birth.date) && Valid(today.date)
    requires NotAfter(birth.date, today.date)
    ensures ComputeAge(birth, today).years >= 0
  {
  }

  /** Born on today's calendar date: zero years, months, weeks and days. */
  lemma SameDateIsZero(birth: Moment, today: Moment)
    requires Valid(birth.date) && birth.date == today.date
    ensures var r := ComputeAge(birth, today);
            r.years == 0 && r.months == 0 && r.weeks == 0 && r.days == 0
  {
  }

  /** The borrowed days are the length of the month before today's month in
      today's year: born on 2000-02-29, on 2001-03-01 one borrows February
      2001 (28 days) and is exactly one year old. */
  lemma LeapDayBorrowExample(birthMs: int, todayMs: int)
    ensures var r := ComputeAge(Moment(Date(2000, 2, 29), birthMs), Moment(Date(2001, 3, 1), todayMs));
            r.years == 1 && r.months == 0 && r.weeks == 0 && r.days == 0
  {
  }

  /** The borrowed day count stays negative when the birth day exceeds today's
      day plus the length of the month before today's month: born on 2000-01-31, on
      2001-03-01 the count is -2, shown as -1 weeks and -2 days; on
      2000-03-01 it is -1. */
  lemma NegativeRemainderExample(birthMs: int, todayMs: int)
    ensures DayCount(Date(2000, 1, 31), Date(2001, 3, 1)) == -2
    ensures var r := ComputeAge(Moment(Date(2000, 1, 31), birthMs), Moment(Date(2001, 3, 1), todayMs));
            r.years == 1 && r.months == 1 && r.weeks == -1 && r.days == -2
    ensures var r := ComputeAge(Moment(Date(2000, 1, 31), birthMs), Moment(Date(2000, 3, 1), todayMs));
            r.years == 0 && r.months == 1 && r.weeks == -1 && r.days == -1
  {
  }

  /** The clamped computation agrees with the program exactly when the
      program's count is non-negative, that is, exactly when there is no
      borrow or the birth day is at most today's day plus the borrowed
      month's length. */
  lemma ClampedAgreesIffCountNonNegative(birth: Moment, today: Moment)
    requires Valid(birth.date) && Valid(today.date)
    ensures ComputeAgeClamped(birth, today) == ComputeAge(birth, today)
            <==> DayCount(birth.date, today.date) >= 0
    ensures ComputeAgeClamped(birth, today) == ComputeAge(birth, today)
            <==> Borrow(birth.date, today.date) == 0
                 || birth.date.day <= today.date.day + PrecedingMonthLength(today.date.year, today.date.month)
  {
  }

  /** The borrowed month can be shorter than the birth day and the count
      still be in range: born 2001-01-30, on 2001-03-02 the count is 0, and
      both computations give one month and zero days. */
  lemma InRangeDespiteShortMonth(birthMs: int, todayMs: int)
    ensures DayCount(Date(2001, 1, 30), Date(2001, 3, 2)) == 0
    ensures var b, t := Moment(Date(2001, 1, 30), birthMs), Moment(Date(2001, 3, 2), todayMs);
            ComputeAgeClamped(b, t) == ComputeAge(b, t)
            && ComputeAge(b, t).months == 1 && ComputeAge(b, t).weeks == 0 && ComputeAge(b, t).days == 0
  {
  }

  /** The clamped count on the example where the program's count is
      negative: born 2000-01-31, on 2001-03-01 one year, one month, zero
      weeks and zero days. */
  lemma ClampedExample(birthMs: int, todayMs: int)
    ensures var r := ComputeAgeClamped(Moment(Date(2000, 1, 31), birthMs), Moment(Date(2001, 3, 1), todayMs));
            r.years == 1 && r.months == 1 && r.weeks == 0 && r.days == 0
  {
  }

  /** Swapping the two instants leaves the totals unchanged. */
  lemma TotalsSymmetric(a: int, b: int)
    ensures ComputeTotals(a, b) == ComputeTotals(b, a)
  {
  }

  /** 25 hours exactly: days round up to 2, hours and minutes round down. */
  lemma TotalsExample()
    ensures ComputeTotals(0, 90000000) == Totals(2, 25, 1500)
  {
  }

  /** How the three totals of one span relate to each other. */
  lemma TotalsRelations(birthMs: int, todayMs: int)
    ensures var t := ComputeTotals(birthMs, todayMs);
            && 60 * t.hours <= t.minutes < 60 * (t.hours + 1)
            && t.hours <= 24 * t.days
            && (t.days == 0 <==> birthMs == todayMs)
            && t.days >= 0 && t.hours >= 0 && t.minutes >= 0
  {
  }

  /** Each total is non-decreasing in the distance between the instants. */
  lemma TotalsMonotone(birthMs: int, todayMs: int, birthMs': int, todayMs': int)
    requires Abs(todayMs - birthMs) <= Abs(todayMs' - birthMs')
    ensures var t, t' := ComputeTotals(birthMs, todayMs), ComputeTotals(birthMs', todayMs');
            t.days <= t'.days && t.hours <= t'.hours && t.minutes <= t'.minutes
  {
  }

  /** Moving today to the next calendar day never lowers the elapsed-month
      count. */
  lemma ElapsedMonthsNextDay(birth: Date, today: Date)
    requires Valid(birth) && Valid(today)
    ensures ElapsedMonths(birth, today) <= ElapsedMonths(birth, NextDay(today))
  {
  }

  /** Moving today forward by any number of days never lowers the
      elapsed-month count. */
  lemma {:induction false} ElapsedMonthsMonotone(birth: Date, today: Date, k: nat)
    requires Valid(birth) && Valid(today)
    ensures ElapsedMonths(birth, today) <= ElapsedMonths(birth, AddDays(today, k))
    decreases k
  {
    if k > 0 {
      ElapsedMonthsNextDay(birth, today);
      ElapsedMonthsMonotone(birth, NextDay(today), k - 1);
    }
  }

  /** For a fixed birth, a later today never gives a smaller (years, months)
      pair, and never smaller totals. */
  lemma AgeMonotoneInToday(birth: Moment, today: Moment, k: nat, laterMs: int)
    requires Valid(birth.date) && Valid(today.date)
    requires birth.ms <= today.ms <= laterMs
    ensures var a, b := ComputeAge(birth, today), ComputeAge(birth, Moment(AddDays(today.date, k), laterMs));
            && YearsMonthsNotAfter(a, b)
            && a.totalDays <= b.totalDays
            && a.totalHours <= b.totalHours
            && a.totalMinutes <= b.totalMinutes
  {
    ElapsedMonthsMonotone(birth.date, today.date, k);
    TotalsMonotone(birth.ms, today.ms, birth.ms, laterMs);
  }
}
