/** Calendar dates as epoch day numbers (day 0 is 1970-01-01, a Thursday),
    the day-of-week rule of `java.time.LocalDate`, and the two week-boundary
    adjusters of `DateUtil`. */
module DateUtil {

  type Date = int

  const MONDAY: int := 1
  const SATURDAY: int := 6
  const SUNDAY: int := 7

  /** ISO day of week, 1 = Monday .. 7 = Sunday, as `LocalDate.getDayOfWeek`
      computes it: floorMod(epochDay + 3, 7) + 1. */
  function DayOfWeek(d: Date): (r: int)
    ensures MONDAY <= r <= SUNDAY
  {
    (d + 3) % 7 + 1
  }

  /** Moving k days forward (0 <= k < 7) from a day advances the day of week
      by k, wrapping from Sunday to Monday. */
  lemma DayOfWeekAdvance(d: Date, k: int)
    requires 0 <= k < 7
    ensures DayOfWeek(d + k) == (DayOfWeek(d) - 1 + k) % 7 + 1
  {
    var q := (d + 3) / 7;
    var m := (d + 3) % 7;
    assert d + 3 == 7 * q + m;
    assert d + k + 3 == 7 * q + (m + k);
    if m + k < 7 {
      assert (d + k + 3) % 7 == m + k;
    } else {
      assert d + k + 3 == 7 * (q + 1) + (m + k - 7);
      assert (d + k + 3) % 7 == m + k - 7;
    }
  }

  /** Seven days later is the same day of the week. */
  lemma DayOfWeekPeriodic(d: Date)
    ensures DayOfWeek(d + 7) == DayOfWeek(d)
  {
    assert d + 7 + 3 == (d + 3) + 7;
  }

  /** The k-th day after a Monday (0 <= k < 7) has day-of-week value k + 1. */
  lemma DayOfWeekFromMonday(monday: Date, k: int)
    requires DayOfWeek(monday) == MONDAY && 0 <= k < 7
    ensures DayOfWeek(monday + k) == k + 1
  {
    DayOfWeekAdvance(monday, k);
  }

  /** `getStartOfWeek`: `previousOrSame(MONDAY)`, the latest Monday on or before d. */
  function GetStartOfWeek(d: Date): (r: Date)
    ensures DayOfWeek(r) == MONDAY
    ensures d - 6 <= r <= d
    ensures forall x :: r < x <= d ==> DayOfWeek(x) != MONDAY
  {
    var back := DayOfWeek(d) - MONDAY;
    var r := d - back;
    assert (d + 3) - (d + 3) % 7 == 7 * ((d + 3) / 7);
    assert DayOfWeek(r) == MONDAY;
    forall x | r < x <= d
      ensures DayOfWeek(x) != MONDAY
    {
      DayOfWeekFromMonday(r, x - r);
    }
    r
  }

  /** `getEndOfWeek`: `nextOrSame(SUNDAY)`, the earliest Sunday on or after d. */
  function GetEndOfWeek(d: Date): (r: Date)
    ensures DayOfWeek(r) == SUNDAY
    ensures d <= r <= d + 6
    ensures forall x :: d <= x < r ==> DayOfWeek(x) != SUNDAY
  {
    var ahead := SUNDAY - DayOfWeek(d);
    var r := d + ahead;
    DayOfWeekAdvance(d, ahead);
    forall x | d <= x < r
      ensures DayOfWeek(x) != SUNDAY
    {
      DayOfWeekAdvance(d, x - d);
    }
    r
  }

  /** A Monday is its own start of week, and adjusting twice changes nothing. */
  lemma StartOfWeekIdempotent(d: Date)
    ensures DayOfWeek(d) == MONDAY ==> GetStartOfWeek(d) == d
    ensures GetStartOfWeek(GetStartOfWeek(d)) == GetStartOfWeek(d)
  {
  }

  /** A Sunday is its own end of week, and adjusting twice changes nothing. */
  lemma EndOfWeekIdempotent(d: Date)
    ensures DayOfWeek(d) == SUNDAY ==> GetEndOfWeek(d) == d
    ensures GetEndOfWeek(GetEndOfWeek(d)) == GetEndOfWeek(d)
  {
  }

  /** The week that starts on getStartOfWeek(d) ends six days later. */
  lemma EndOfStartOfWeek(d: Date)
    ensures GetEndOfWeek(GetStartOfWeek(d)) == GetStartOfWeek(d) + 6
  {
    var m := GetStartOfWeek(d);
    DayOfWeekFromMonday(m, 6);
  }

  /** d lies in the Monday-to-Sunday week [getStartOfWeek(d), getEndOfWeek(d)],
      and that week is exactly seven days long. */
  lemma WeekContainsDay(d: Date)
    ensures GetStartOfWeek(d) <= d <= GetEndOfWeek(d)
    ensures GetEndOfWeek(d) == GetStartOfWeek(d) + 6
  {
    var m := GetStartOfWeek(d);
    EndOfStartOfWeek(d);
    DayOfWeekFromMonday(m, 6);
    DayOfWeekFromMonday(m, d - m);
  }
}
