/**
 * The Monday-to-Sunday week containing an instant, as Carbon's
 * `startOfWeek(MONDAY)` and `endOfWeek(SUNDAY)` compute it. Instants are
 * whole seconds of local wall-clock time counted from 1970-01-01 00:00,
 * which was a Thursday.
 */
module Calendar {

  const SecondsPerDay := 86400
  const DaysPerWeek := 7
  const SecondsPerWeek := DaysPerWeek * SecondsPerDay

  /** Day number of an instant; `/` on a positive divisor is floor division. */
  function DayOf(t: int): int {
    t / SecondsPerDay
  }

  /** Day of the week, 0 for Monday up to 6 for Sunday. */
  function Weekday(day: int): (w: int)
    ensures 0 <= w < DaysPerWeek
  {
    (day + 3) % DaysPerWeek
  }

  predicate IsMondayMidnight(m: int) {
    m % SecondsPerDay == 0 && Weekday(DayOf(m)) == 0
  }

  /** Monday 00:00:00 of the week containing `t`. */
  function StartOfWeek(t: int): (m: int)
    ensures IsMondayMidnight(m)
    ensures m <= t < m + SecondsPerWeek
  {
    var d := DayOf(t);
    (d - Weekday(d)) * SecondsPerDay
  }

  /** Sunday 23:59:59 of the week containing `t`. */
  function EndOfWeek(t: int): (e: int)
    ensures Weekday(DayOf(e)) == DaysPerWeek - 1
    ensures e % SecondsPerDay == SecondsPerDay - 1
    ensures StartOfWeek(t) <= t <= e
    ensures e - StartOfWeek(t) == SecondsPerWeek - 1
  {
    StartOfWeek(t) + SecondsPerWeek - 1
  }

  /** Two Monday midnights less than a week apart are the same instant. */
  lemma MondaysAWeekApart(m1: int, m2: int)
    requires IsMondayMidnight(m1) && IsMondayMidnight(m2) && m1 <= m2 < m1 + SecondsPerWeek
    ensures m1 == m2
  {
    var d1, d2 := DayOf(m1), DayOf(m2);
    assert m1 == d1 * SecondsPerDay && m2 == d2 * SecondsPerDay;
    assert d1 <= d2 < d1 + DaysPerWeek;
    assert (d1 + 3) % DaysPerWeek == 0 && (d2 + 3) % DaysPerWeek == 0;
  }

  /** The window is the only Monday-midnight week that contains `t`. */
  lemma StartOfWeekUnique(t: int, m: int)
    requires IsMondayMidnight(m) && m <= t < m + SecondsPerWeek
    ensures m == StartOfWeek(t)
  {
    var s := StartOfWeek(t);
    if m <= s {
      MondaysAWeekApart(m, s);
    } else {
      MondaysAWeekApart(s, m);
    }
  }

  /** Every instant of a week has that same week. */
  lemma SameWeek(t: int, u: int)
    requires StartOfWeek(t) <= u <= EndOfWeek(t)
    ensures StartOfWeek(u) == StartOfWeek(t) && EndOfWeek(u) == EndOfWeek(t)
  {
    StartOfWeekUnique(u, StartOfWeek(t));
  }

  /**
   * 2025-08-05 00:00 (a Tuesday) lies in the week from Monday 2025-08-04
   * 00:00:00 to Sunday 2025-08-10 23:59:59.
   */
  lemma TuesdayExample()
    ensures StartOfWeek(1754352000) == 1754265600
    ensures EndOfWeek(1754352000) == 1754870399
  {
    StartOfWeekUnique(1754352000, 1754265600);
  }
}
