/** The Western zodiac sign of a birthday, with the program's Vietnamese
    labels. The sign depends on the month and day only. */
module Zodiac {
  import opened Calendar

  const Aquarius := "Bảo Bình"
  const Pisces := "Song Ngư"
  const Aries := "Bạch Dương"
  const Taurus := "Kim Ngưu"
  const Gemini := "Song Tử"
  const Cancer := "Cự Giải"
  const Leo := "Sư Tử"
  const Virgo := "Xử Nữ"
  const Libra := "Thiên Bình"
  const Scorpio := "Thiên Yết"
  const Sagittarius := "Nhân Mã"
  const Capricorn := "Ma Kết"

  /** The twelve labels the lookup can produce. */
  const Labels: set<string> :=
    {Aquarius, Pisces, Aries, Taurus, Gemini, Cancer, Leo, Virgo, Libra, Scorpio, Sagittarius, Capricorn}

  /** The lookup as the program performs it: eleven two-month ranges tried in
      order, Capricorn when none matches. `month` is 1-based. */
  function SignOf(month: int, day: int): (s: string)
    ensures s in Labels
  {
    if (month == 1 && day >= 20) || (month == 2 && day <= 18) then Aquarius
    else if (month == 2 && day >= 19) || (month == 3 && day <= 20) then Pisces
    else if (month == 3 && day >= 21) || (month == 4 && day <= 19) then Aries
    else if (month == 4 && day >= 20) || (month == 5 && day <= 20) then Taurus
    else if (month == 5 && day >= 21) || (month == 6 && day <= 20) then Gemini
    else if (month == 6 && day >= 21) || (month == 7 && day <= 22) then Cancer
    else if (month == 7 && day >= 23) || (month == 8 && day <= 22) then Leo
    else if (month == 8 && day >= 23) || (month == 9 && day <= 22) then Virgo
    else if (month == 9 && day >= 23) || (month == 10 && day <= 22) then Libra
    else if (month == 10 && day >= 23) || (month == 11 && day <= 21) then Scorpio
    else if (month == 11 && day >= 22) || (month == 12 && day <= 21) then Sagittarius
    else Capricorn
  }

  /** The sign of a date (`getMonth() + 1` and `getDate()`); the year plays
      no part. */
  function ZodiacSign(d: Date): (s: string)
    requires 1 <= d.month <= 12
    ensures s in Labels
    ensures s == SignByCusp(d.month, d.day)
  {
    SignOfMatchesCuspTable(d.month, d.day);
    SignOf(d.month, d.day)
  }

  /** Reference table: the first day of the sign that begins in `month`. */
  function CuspDay(month: int): int
    requires 1 <= month <= 12
  {
    [20, 19, 21, 20, 21, 21, 23, 23, 23, 23, 22, 22][month - 1]
  }

  /** Reference table: the sign that begins in `month`. */
  function BeginsIn(month: int): string
    requires 1 <= month <= 12
  {
    [Aquarius, Pisces, Aries, Taurus, Gemini, Cancer, Leo, Virgo, Libra, Scorpio, Sagittarius, Capricorn][month - 1]
  }

  /** Independent definition: on or after the cusp day the sign that begins
      this month, before it the sign that began in the previous month
      (December's, for January). */
  function SignByCusp(month: int, day: int): string
    requires 1 <= month <= 12
  {
    if day >= CuspDay(month) then BeginsIn(month)
    else BeginsIn(if month == 1 then 12 else month - 1)
  }

  /** The ordered range tests agree with the cusp table for every month and
      every day number: the ranges leave no gap and never overlap. */
  lemma SignOfMatchesCuspTable(month: int, day: int)
    requires 1 <= month <= 12
    ensures SignOf(month, day) == SignByCusp(month, day)
  {
  }

  /** The boundary days on both sides of each cusp the program is most often
      checked against. */
  lemma BoundaryExamples()
    ensures SignOf(1, 19) == Capricorn && SignOf(1, 20) == Aquarius
    ensures SignOf(2, 18) == Aquarius && SignOf(2, 19) == Pisces
    ensures SignOf(3, 20) == Pisces && SignOf(3, 21) == Aries
    ensures SignOf(12, 21) == Sagittarius && SignOf(12, 22) == Capricorn
  {
  }

  /** Each label is produced for exactly one contiguous stretch of the year:
      the twelve labels are pairwise distinct. */
  lemma TwelveDistinctLabels()
    ensures |Labels| == 12
  {
  }
}
