/**
 * Timestamps are whole seconds since 1970-01-01 00:00 in the naive local
 * time the server stores. Weekday, clock time and calendar date are
 * functions of a timestamp; the holiday table is a set of day numbers.
 */
module Calendar {
  import opened Models

  const SecondsPerMinute: int := 60
  const SecondsPerHour: int := 3600
  const SecondsPerDay: int := 86400
  const SecondsPerWeek: int := 604800

  /** Days since 1970-01-01 (floor division, also before the epoch). */
  function DayNumber(t: int): int { t / SecondsPerDay }

  /** `datetime.weekday()`: 0 is Monday; 1970-01-01 was a Thursday. */
  function Weekday(t: int): (w: int)
    ensures 0 <= w < 7
  {
    (DayNumber(t) + 3) % 7
  }

  /** `datetime.time()`, to the second. */
  function ClockTime(t: int): TimeOfDay { t % SecondsPerDay }

  function Hour(s: TimeOfDay): (h: int)
    ensures 0 <= h < 24
  {
    s / SecondsPerHour
  }

  function Minute(s: TimeOfDay): (m: int)
    ensures 0 <= m < 60
  {
    (s / SecondsPerMinute) % 60
  }

  /** INT_TO_DAY_MAP. */
  function IntToDay(i: int): DayOfWeek
    requires 0 <= i < 7
  {
    match i
    case 0 => Monday
    case 1 => Tuesday
    case 2 => Wednesday
    case 3 => Thursday
    case 4 => Friday
    case 5 => Saturday
    case 6 => Sunday
  }

  /** `weekday_map` of the fixed-schedule backfill. */
  function DayToInt(d: DayOfWeek): int
  {
    match d
    case Monday => 0
    case Tuesday => 1
    case Wednesday => 2
    case Thursday => 3
    case Friday => 4
    case Saturday => 5
    case Sunday => 6
  }

  /** The two day maps are inverse bijections between 0..6 and the seven days. */
  lemma DayMapsInverse(i: int, d: DayOfWeek)
    ensures 0 <= DayToInt(d) < 7 && IntToDay(DayToInt(d)) == d
    ensures 0 <= i < 7 ==> DayToInt(IntToDay(i)) == i
  {
  }

  /** The day of the week a timestamp falls on. */
  function DayOf(t: int): DayOfWeek { IntToDay(Weekday(t)) }

  /** Comparing a day with DayOf is the same as comparing its number with Weekday. */
  lemma DayOfMatches(t: int, d: DayOfWeek)
    ensures (DayOf(t) == d) <==> (Weekday(t) == DayToInt(d))
  {
    DayMapsInverse(Weekday(t), d);
  }

  /** A whole number of weeks later is the same weekday at the same clock time. */
  lemma {:induction false} WeeksLater(t: int, k: nat)
    ensures DayNumber(t + k * SecondsPerWeek) == DayNumber(t) + 7 * k
    ensures Weekday(t + k * SecondsPerWeek) == Weekday(t)
    ensures ClockTime(t + k * SecondsPerWeek) == ClockTime(t)
  {
    if k > 0 {
      WeeksLater(t, k - 1);
      var u := t + (k - 1) * SecondsPerWeek;
      assert t + k * SecondsPerWeek == u + 7 * SecondsPerDay;
      assert (u + 7 * SecondsPerDay) / SecondsPerDay == u / SecondsPerDay + 7;
      assert (u + 7 * SecondsPerDay) % SecondsPerDay == u % SecondsPerDay;
    }
  }

  /** The year counted from March, so that the leap day ends it. */
  function MarchYear(y: int, m: int): int { if m <= 2 then y - 1 else y }

  /** The month counted from March (0 = March, 11 = February). */
  function MarchMonth(m: int): int { if m > 2 then m - 3 else m + 9 }

  /** Days from the first of March to the first of each March-based month. */
  const MonthOffset: seq<int> := [0, 31, 61, 92, 122, 153, 184, 214, 245, 275, 306, 337]

  /** Days from 0000-03-01 to the first of March of March-based year `y`. */
  function DaysBeforeMarchYear(y: int): int
  {
    (y / 400) * 146097 + (y % 400) * 365 + (y % 400) / 4 - (y % 400) / 100
  }

  /** Day number of a proleptic Gregorian date (days-from-civil). */
  function DaysFromCivil(y: int, m: int, d: int): int
    requires 1 <= m <= 12 && 1 <= d <= 31
  {
    DaysBeforeMarchYear(MarchYear(y, m)) + MonthOffset[MarchMonth(m)] + d - 1 - 719468
  }

  /** The March-based years the holiday table spans start on these day numbers (before the epoch shift). */
  lemma MarchYearStarts()
    ensures DaysBeforeMarchYear(1969) == 719162
    ensures DaysBeforeMarchYear(2025) == 739616
    ensures DaysBeforeMarchYear(2026) == 739981
    ensures DaysBeforeMarchYear(2027) == 740346
  {
    assert 1969 / 400 == 4 && 1969 % 400 == 369;
    assert 2025 / 400 == 5 && 2025 % 400 == 25;
    assert 2026 / 400 == 5 && 2026 % 400 == 26;
    assert 2027 / 400 == 5 && 2027 % 400 == 27;
  }

  /** The conversion is anchored at the epoch and agrees with known weekdays. */
  lemma CivilAnchors()
    ensures DaysFromCivil(1970, 1, 1) == 0
    ensures DaysFromCivil(2026, 1, 1) == 20454 && Weekday(20454 * SecondsPerDay) == 3
    ensures DaysFromCivil(2026, 10, 12) == 20738 && Weekday(20738 * SecondsPerDay) == 0
  {
    MarchYearStarts();
  }

  /** HOLIDAYS_2026: the fixed Argentine holidays of 2026 and 2027, as day numbers. */
  const Holidays2026: set<int> := {
    20454, 20500, 20501, 20536, 20545, 20546, 20574, 20598, 20624, 20643, 20682, 20738, 20780, 20795, 20812,
    20819, 20857, 20858, 20901, 20903, 20910, 20939, 20963, 20989, 21008, 21160, 21177
  }

  /** The 2026 entries of the table are these calendar dates. */
  lemma HolidayDates2026()
    ensures DaysFromCivil(2026, 1, 1) == 20454
    ensures DaysFromCivil(2026, 2, 16) == 20500
    ensures DaysFromCivil(2026, 2, 17) == 20501
    ensures DaysFromCivil(2026, 3, 24) == 20536
    ensures DaysFromCivil(2026, 4, 2) == 20545
    ensures DaysFromCivil(2026, 4, 3) == 20546
    ensures DaysFromCivil(2026, 5, 1) == 20574
    ensures DaysFromCivil(2026, 5, 25) == 20598
    ensures DaysFromCivil(2026, 6, 20) == 20624
    ensures DaysFromCivil(2026, 7, 9) == 20643
    ensures DaysFromCivil(2026, 8, 17) == 20682
    ensures DaysFromCivil(2026, 10, 12) == 20738
    ensures DaysFromCivil(2026, 11, 23) == 20780
    ensures DaysFromCivil(2026, 12, 8) == 20795
    ensures DaysFromCivil(2026, 12, 25) == 20812
  {
    MarchYearStarts();
  }

  /** The 2027 entries of the table are these calendar dates. */
  lemma HolidayDates2027()
    ensures DaysFromCivil(2027, 1, 1) == 20819
    ensures DaysFromCivil(2027, 2, 8) == 20857
    ensures DaysFromCivil(2027, 2, 9) == 20858
    ensures DaysFromCivil(2027, 3, 24) == 20901
    ensures DaysFromCivil(2027, 3, 26) == 20903
    ensures DaysFromCivil(2027, 4, 2) == 20910
    ensures DaysFromCivil(2027, 5, 1) == 20939
    ensures DaysFromCivil(2027, 5, 25) == 20963
    ensures DaysFromCivil(2027, 6, 20) == 20989
    ensures DaysFromCivil(2027, 7, 9) == 21008
    ensures DaysFromCivil(2027, 12, 8) == 21160
    ensures DaysFromCivil(2027, 12, 25) == 21177
  {
    MarchYearStarts();
  }

  /** The date of `t`, formatted as in the holiday table, is one of the holidays. */
  predicate IsHoliday(t: int, holidays: set<int>) { DayNumber(t) in holidays }

  /** Every instant of 2026-10-12 (Columbus Day) is a holiday; the day after is not. */
  lemma HolidayExamples(t: int)
    requires 20738 * SecondsPerDay <= t < 20739 * SecondsPerDay
    ensures IsHoliday(t, Holidays2026)
    ensures !IsHoliday(t + SecondsPerDay, Holidays2026)
  {
    assert DayNumber(t) == 20738;
    assert DayNumber(t + SecondsPerDay) == 20739;
  }
}
