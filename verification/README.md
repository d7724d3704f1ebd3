# Person-Age-Master: a Dafny model of the precise-age calculator

The program takes a birth date and tells a person how old they are. It gives
years, months, weeks and days on the calendar. It also gives the elapsed time
as totals in days, hours and minutes, and the zodiac sign of the birth date.
It then asks an external text-generation service for trivia about that date.
This project models that core and proves properties of it:

- `calendar.dfy` (module `Calendar`): calendar dates as the JavaScript `Date`
  object exposes them. This covers proleptic Gregorian month lengths, the
  length of the month before a given month (`new Date(y, m, 0).getDate()`),
  chronological order and the next calendar day. A `Moment` pairs a date
  with its millisecond instant.
- `jsmath.dfy` (module `JsMath`): `Math.abs`, `Math.floor` and `Math.ceil` of
  a quotient, and JavaScript's truncating `%`. Each is written out over
  unbounded integers, because Dafny's own `/` and `%` are Euclidean.
- `zodiac.dfy` (module `Zodiac`): `getZodiacSign`, which runs eleven ordered
  range tests and falls back to Capricorn ("Ma Kết"). It is proved equal to
  an independent cusp table.
- `age.dfy` (module `Age`): `calculatePreciseAge` with "today" as a
  parameter. It has two parts:
  - the calendar breakdown: subtract the fields, borrow the length of the
    month before today's month, borrow 12 months, then split the day count
    into weeks and days;
  - the totals, computed from the absolute millisecond difference.

  The module also defines a corrected day count (see Findings).
- `age_properties.dfy` (module `AgeProperties`): lemmas about the age
  computation. They cover the zero case, non-negative years, the borrow rule
  and its negative-count flaw, the totals' rounding and relations, and
  monotonicity in "today".
- `app.dfy` (module `App`): the calculate handler as a transition function
  over the page state (age result, trivia, status, error message). It also
  models the guard that disables the button while a calculation is in
  flight. The trivia service is a success/failure oracle given as a
  parameter.

In the code, weeks and days can be negative. A borrowed day count can be -1
or -2, which gives `weeks = -1` and `days = -1` or `-2`. Without the
correction, `weeks * 7 + days` reconstructs the day count only when the
count is non-negative. This model follows the code.

The code also keeps the minutes and the hours consistent:
`60 * totalHours <= totalMinutes < 60 * (totalHours + 1)` always holds
(`AgeProperties.TotalsRelations`). The reason is that both are floors of the
same millisecond span.

## Model

| member | source | states |
|---|---|---|
| Calendar.PrecedingMonthLength | utils/dateUtils.ts:14-15 | Day 0 of a month is the day before its 1st. The result is a valid day of the preceding month (December of the previous year for January), and the next day after it is the 1st of the given month. So it is that month's last day, which is its length. |
| JsMath.Abs | utils/dateUtils.ts:27 | `Math.abs`: the result is non-negative and equals the argument or its negation. |
| JsMath.FloorDiv | utils/dateUtils.ts:23 | `Math.floor(a / b)`: the `q` with `q*b <= a < q*b + b`, for negative `a` too. |
| JsMath.CeilDiv | utils/dateUtils.ts:28 | `Math.ceil(a / b)`: the `q` with `q*b - b < a <= q*b`. |
| JsMath.TruncRem | utils/dateUtils.ts:24 | JavaScript `%`: the remainder has the sign of the dividend, its size is below the divisor, and it completes the truncated quotient. |
| Age.YearsMonths | utils/dateUtils.ts:7-21 | Months end up in 0..11. `12*years + months` equals the month boundaries crossed minus one borrowed month. The year is taken away exactly when the month difference after the borrow is negative. |
| Age.DayCount | utils/dateUtils.ts:9-16 | It adds today's preceding month length exactly when the day difference is negative. It always lies in -2..30. It is non-negative iff there is no borrow or the birth day is at most today's day plus the preceding month's length. |
| Age.SplitWeeks | utils/dateUtils.ts:23-24 | For a non-negative count, `weeks*7 + days` gives the count back with days in 0..6. A count up to 34 gives weeks in 0..4. A count in -6..-1 gives weeks -1, and days equal to the count. |
| Age.ComputeTotals | utils/dateUtils.ts:27-30 | With `d = abs(today - birth)` in ms: days is the ceiling of `d / 86400000`, hours the floor of `d / 3600000`, minutes the floor of `d / 60000`, each as a two-sided bound. |
| Age.ComputeAge | utils/dateUtils.ts:4-42 | The age as the code computes it. It gives months in range, the elapsed-month identity, and the week/day split of the day count (with weeks -1 when the count is negative). The totals come from the instants and the sign from the birth date's month and day. |
| Age.ClampedDayCount | utils/dateUtils.ts:12-16 | Corrected count: always in 0..30. It is the smallest value that is at least 0 and at least the code's count. It equals the code's count exactly when that count is non-negative. |
| Age.ComputeAgeClamped | utils/dateUtils.ts:4-42 | Corrected age: the same years, months, totals and sign, with `0 <= weeks <= 4`, `0 <= days <= 6` and `weeks*7 + days` equal to the clamped count. A negative count becomes 0 weeks and 0 days. |
| AgeProperties.YearsNonNegative | utils/dateUtils.ts:7-21 | A birth date that is not after today gives `years >= 0`. |
| AgeProperties.SameDateIsZero | utils/dateUtils.ts:7-24 | Birth on today's calendar date gives 0 years, 0 months, 0 weeks and 0 days. |
| AgeProperties.LeapDayBorrowExample | utils/dateUtils.ts:12-16 | Birth 2000-02-29 and today 2001-03-01 give 1 year, 0 months, 0 weeks and 0 days. The borrow uses February of today's year. |
| AgeProperties.NegativeRemainderExample | utils/dateUtils.ts:9-24 | Birth 2000-01-31 and today 2001-03-01 give count -2, weeks -1 and days -2. With today 2000-03-01 they give weeks -1 and days -1. |
| AgeProperties.ClampedAgreesIffCountNonNegative | utils/dateUtils.ts:12-16 | The corrected age equals the code's age if and only if the code's count is non-negative. Equivalently: there is no borrow, or the birth day is at most today's day plus the borrowed month's length. |
| AgeProperties.InRangeDespiteShortMonth | utils/dateUtils.ts:9-24 | A birth day missing from the borrowed month does not always give a negative count. Birth 2001-01-30 and today 2001-03-02 give count 0, and both ages are 1 month, 0 weeks and 0 days. |
| AgeProperties.ClampedExample | utils/dateUtils.ts:12-24 | Corrected age for birth 2000-01-31 and today 2001-03-01: 1 year, 1 month, 0 weeks and 0 days. |
| AgeProperties.TotalsSymmetric | utils/dateUtils.ts:27-30 | Swapping birth and today leaves all three totals unchanged. |
| AgeProperties.TotalsExample | utils/dateUtils.ts:28-30 | A span of 90000000 ms gives 2 days, 25 hours and 1500 minutes. |
| AgeProperties.TotalsRelations | utils/dateUtils.ts:28-30 | `60*hours <= minutes < 60*(hours+1)` and `hours <= 24*days`. `days == 0` iff the two instants are equal. All totals are non-negative. |
| AgeProperties.TotalsMonotone | utils/dateUtils.ts:27-30 | A span that is no longer never gives larger totals. |
| AgeProperties.ElapsedMonthsNextDay | utils/dateUtils.ts:7-21 | Advancing today by one calendar day never lowers `12*years + months`. |
| AgeProperties.ElapsedMonthsMonotone | utils/dateUtils.ts:7-21 | Advancing today by any number of days never lowers `12*years + months` (proof by induction on the days). |
| AgeProperties.AgeMonotoneInToday | utils/dateUtils.ts:7-30 | For a fixed birth, a later today never gives a lexicographically smaller (years, months) pair or a smaller total. |
| Zodiac.SignOf | utils/dateUtils.ts:47-58 | The ordered range lookup always returns one of the twelve labels. |
| Zodiac.ZodiacSign | utils/dateUtils.ts:44-58 | The sign of a date is one of the twelve labels. It equals the cusp-table sign of its month and day, so the year plays no part. |
| Zodiac.SignOfMatchesCuspTable | utils/dateUtils.ts:47-58 | For every month and every day number, the ordered ranges agree with the cusp table, so they leave no gaps and never overlap. |
| Zodiac.BoundaryExamples | utils/dateUtils.ts:47-58 | Jan 19 is Ma Kết and Jan 20 is Bảo Bình. Feb 18 is Bảo Bình and Feb 19 is Song Ngư. Mar 20 is Song Ngư and Mar 21 is Bạch Dương. Dec 21 is Nhân Mã and Dec 22 is Ma Kết. |
| Zodiac.TwelveDistinctLabels | utils/dateUtils.ts:47-58 | The twelve labels are pairwise distinct. |
| App.Initial | App.tsx:9-13 | The page starts with an empty field, IDLE status, and no age, trivia or error. |
| App.EditInput | App.tsx:77 | Editing the field changes only the field. |
| App.Launch | App.tsx:24-29 | An accepted date sets status LOADING and clears the error. It stores the corrected age before the trivia call; that is the code's age whenever the code's day count is non-negative. The trivia is kept. |
| App.Settle | App.tsx:31-37 | Success stores the trivia and sets SUCCESS. Failure sets ERROR with the partial-success message and keeps the earlier trivia. The age is never touched. |
| App.HandleCalculate | App.tsx:15-39 | An empty field changes nothing. A future birth instant sets only the error message. An accepted date stores the corrected age whatever the trivia outcome; that is the code's age whenever the code's day count is non-negative. It then gives SUCCESS with the trivia and no error, or ERROR with the message and the old trivia. |
| App.Click | App.tsx:85-87 | A click with no date, or while LOADING, changes nothing. Otherwise it runs the handler. |
| App.ConsistentInvariant | App.tsx:15-39 | The initial page is consistent. Every step keeps it so: an edit (also during LOADING), a whole click, the launch of an accepted calculation (the in-flight LOADING state), and the settling of an in-flight calculation. Consistent means: trivia only with an age; SUCCESS has both; ERROR and LOADING have an age; LOADING has no error; IDLE has shown nothing. |
| App.GuardNeeded | App.tsx:87 | Without the button guard, a future date entered during LOADING would give a LOADING page with an error, which is not consistent. |
| App.NoReentryWhileLoading | App.tsx:87 | After a calculation is launched, any click leaves the state unchanged. |
| App.AgeIndependentOfTrivia | App.tsx:28-37 | The stored age is the same for every trivia outcome. |

## Findings

| source | as written | input that shows it | evidently intended | confidence | as-written member | corrected member |
|---|---|---|---|---|---|---|
| utils/dateUtils.ts:12-16 | A negative day difference borrows the length of the month before today's month. When the birth day exceeds today's day plus that length, the count stays negative, and weeks and days are shown negative. | birth 2000-01-31, today 2001-03-01: count -2, weeks -1, days -2 | Weeks in 0..4 and days in 0..6. The correction reads a negative count as 0 days and leaves every non-negative result unchanged. | not executed | AgeProperties.NegativeRemainderExample | Age.ComputeAgeClamped |

The corrected day count reads a count that borrowing leaves negative as 0
days. Birth on Jan 31 and today Mar 1 then reads as one month and zero days.
`AgeProperties.ClampedAgreesIffCountNonNegative` proves that the corrected
age equals the code's age exactly when the code's count is non-negative. The
state machine in `App` stores this corrected age. Its contracts about status,
error and trivia do not depend on which age function is used.

## Left out

- Parsing the field's `YYYY-MM-DD` string and time zones are not modelled.
  `new Date(string)` is UTC midnight, but `getDate()` reads local time. A
  `Moment`'s calendar date and its millisecond instant are therefore
  independent inputs, and no lemma ties the calendar breakdown to the totals.
- The wall clock is left out. "Today" and "now" are parameters. The handler
  reads the clock twice (the future check, then inside the age computation),
  but the model uses one `now` for both.
- Floating-point arithmetic is left out. Millisecond spans are integers, and
  the floor/ceiling quotients are exact. For spans below 2^53 ms, the float
  quotient never crosses an integer wrongly.
- The `Date` constructor maps years 0..99 to 1900..1999. That quirk is left
  out of `Calendar.PrecedingMonthLength`, because its year is today's year
  from the clock.
- The trivia service (`services/geminiService.ts`) is left out: a network call
  and JSON parsing. It is the `TriviaOutcome` parameter: a record or a
  failure.
- Async scheduling, React's batching of state updates and `console.error` are
  left out. The handler's synchronous part is `App.Launch` and its
  continuation is `App.Settle`.
- The JSX rendering, `components/StatCard.tsx`, and `toLocaleString` /
  `toLocaleDateString` formatting are presentation and are left out.
- App.Launch: stores the corrected age (`Age.ComputeAgeClamped`), not the
  code's `calculatePreciseAge` result, so it does not reproduce the negative
  weeks and days the page shows. The two ages are equal whenever the code's
  day count is non-negative, and the contract says so.
- App.HandleCalculate: stores the corrected age for the same reason as
  `App.Launch`. Its contract gives the code's age only when the code's day
  count is non-negative.
- Rejecting a birth date after today is the handler's job, not the age
  computation's. The age functions take any two valid dates, as the code
  does. Non-negative years (`AgeProperties.YearsNonNegative`) is proved only
  for a birth date that is not after today.
