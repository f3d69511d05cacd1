// Proleptic Gregorian calendar arithmetic, as Python's `datetime.date` does
// it: validity of a (year, month, day) triple, the day ordinal used for
// comparisons and day arithmetic, and the next day.
module Calendar {

  datatype Date = Date(year: int, month: int, day: int)

  predicate IsLeap(y: int) {
    y % 4 == 0 && (y % 100 != 0 || y % 400 == 0)
  }

  function DaysInMonth(y: int, m: int): (n: int)
    requires 1 <= m <= 12
    ensures 28 <= n <= 31
    ensures n == 31 <==> m in {1, 3, 5, 7, 8, 10, 12}
    ensures n == 29 <==> (m == 2 && IsLeap(y))
  {
    if m == 2 then (if IsLeap(y) then 29 else 28)
    else if m == 4 || m == 6 || m == 9 || m == 11 then 30
    else 31
  }

  /** The dates `datetime.date` accepts (years beyond 9999 are not excluded
      here: nothing in the model reaches them). */
  predicate Valid(d: Date) {
    d.year >= 1 && 1 <= d.month <= 12 && 1 <= d.day <= DaysInMonth(d.year, d.month)
  }

  type ValidDate = d: Date | Valid(d) witness Date(1, 1, 1)

  function DaysInYear(y: int): int {
    if IsLeap(y) then 366 else 365
  }

  function DaysBeforeYear(y: int): int
    requires y >= 1
    decreases y
  {
    if y == 1 then 0 else DaysBeforeYear(y - 1) + DaysInYear(y - 1)
  }

  function DaysBeforeMonth(y: int, m: int): (n: int)
    requires 1 <= m <= 12
  {
    var leap := if IsLeap(y) then 1 else 0;
    if m == 1 then 0
    else if m == 2 then 31
    else [59, 90, 120, 151, 181, 212, 243, 273, 304, 334][m - 3] + leap
  }

  lemma DaysBeforeMonthStep(y: int, m: int)
    requires 1 <= m <= 12
    ensures m < 12 ==> DaysBeforeMonth(y, m + 1) == DaysBeforeMonth(y, m) + DaysInMonth(y, m)
    ensures m == 12 ==> DaysBeforeMonth(y, m) + DaysInMonth(y, m) == DaysInYear(y)
  {
  }

  /** Day number with 0001-01-01 as day 1, as `date.toordinal()`. */
  function Ordinal(d: ValidDate): int {
    DaysBeforeYear(d.year) + DaysBeforeMonth(d.year, d.month) + d.day
  }

  /** `d + timedelta(days=1)`. */
  function NextDay(d: ValidDate): (r: ValidDate)
    ensures Ordinal(r) == Ordinal(d) + 1
  {
    DaysBeforeMonthStep(d.year, d.month);
    if d.day < DaysInMonth(d.year, d.month) then Date(d.year, d.month, d.day + 1)
    else if d.month < 12 then Date(d.year, d.month + 1, 1)
    else Date(d.year + 1, 1, 1)
  }

  lemma {:induction false} DaysBeforeYearMonotone(a: int, b: int)
    requires 1 <= a <= b
    ensures DaysBeforeYear(a) + DaysInYear(a) <= DaysBeforeYear(b) || a == b
    ensures DaysBeforeYear(a) <= DaysBeforeYear(b)
    decreases b - a
  {
    if a < b {
      DaysBeforeYearMonotone(a, b - 1);
    }
  }

  lemma {:induction false} DaysBeforeMonthMonotone(y: int, a: int, b: int)
    requires 1 <= a < b <= 12
    ensures DaysBeforeMonth(y, a) + DaysInMonth(y, a) <= DaysBeforeMonth(y, b)
    decreases b - a
  {
    DaysBeforeMonthStep(y, a);
    if a + 1 < b {
      DaysBeforeMonthMonotone(y, a + 1, b);
    }
  }

  /** A date's ordinal lies inside its year. */
  lemma OrdinalWithinYear(d: ValidDate)
    ensures DaysBeforeYear(d.year) < Ordinal(d) <= DaysBeforeYear(d.year) + DaysInYear(d.year)
  {
    DaysBeforeMonthStep(d.year, d.month);
    if d.month < 12 {
      DaysBeforeMonthMonotone(d.year, d.month, 12);
      DaysBeforeMonthStep(d.year, 12);
    }
  }

  /** Ordinals order dates lexicographically by (year, month, day), so the
      ordinal comparison used by the model is Python's date comparison. */
  lemma OrdinalOrdersLexicographically(a: ValidDate, b: ValidDate)
    ensures Ordinal(a) < Ordinal(b) <==>
      (a.year < b.year || (a.year == b.year && (a.month < b.month || (a.month == b.month && a.day < b.day))))
  {
    OrdinalWithinYear(a);
    OrdinalWithinYear(b);
    if a.year < b.year {
      DaysBeforeYearMonotone(a.year, b.year);
    } else if b.year < a.year {
      DaysBeforeYearMonotone(b.year, a.year);
    } else if a.month < b.month {
      DaysBeforeMonthMonotone(a.year, a.month, b.month);
    } else if b.month < a.month {
      DaysBeforeMonthMonotone(a.year, b.month, a.month);
    }
  }

  lemma OrdinalInjective(a: ValidDate, b: ValidDate)
    requires Ordinal(a) == Ordinal(b)
    ensures a == b
  {
    OrdinalOrdersLexicographically(a, b);
    OrdinalOrdersLexicographically(b, a);
  }

  // Instants: local wall-clock time in whole seconds, day 1 (0001-01-01)
  // starting at instant 0, so that `datetime.hour` and `strftime("%H%M")`
  // are arithmetic on the instant.

  const SecondsPerDay := 86400

  /** The instant of `hour:minute` on date `d`. */
  function InstantOf(d: ValidDate, hour: int, minute: int): int {
    (Ordinal(d) - 1) * SecondsPerDay + hour * 3600 + minute * 60
  }

  /** `dt.hour` for an instant. */
  function HourOf(t: int): (h: int)
    ensures 0 <= h < 24
  {
    (t % SecondsPerDay) / 3600
  }

  /** `dt.minute` for an instant. */
  function MinuteOf(t: int): (m: int)
    ensures 0 <= m < 60
  {
    (t % 3600) / 60
  }

  /** Ordinal of the day an instant falls on. */
  function DayOf(t: int): int {
    t / SecondsPerDay + 1
  }

  /** Reading back the date, hour and minute an instant was built from. */
  lemma InstantFields(d: ValidDate, hour: int, minute: int)
    requires 0 <= hour < 24 && 0 <= minute < 60
    ensures DayOf(InstantOf(d, hour, minute)) == Ordinal(d)
    ensures HourOf(InstantOf(d, hour, minute)) == hour
    ensures MinuteOf(InstantOf(d, hour, minute)) == minute
  {
    var k := Ordinal(d) - 1;
    var r := hour * 3600 + minute * 60;
    var t := InstantOf(d, hour, minute);
    assert 0 <= r < SecondsPerDay;
    assert t == k * SecondsPerDay + r;
    DivModUnique(t, SecondsPerDay, k, r);
    assert t == (k * 24 + hour) * 3600 + minute * 60;
    DivModUnique(t, 3600, k * 24 + hour, minute * 60);
    DivModUnique(r, 3600, hour, minute * 60);
    DivModUnique(minute * 60, 60, minute, 0);
  }

  lemma DivModUnique(t: int, n: int, q: int, r: int)
    requires n > 0 && 0 <= r < n && t == q * n + r
    ensures t / n == q && t % n == r
  {
    var q0, r0 := t / n, t % n;
    assert t == q0 * n + r0 && 0 <= r0 < n;
    if q0 < q {
      LowerMultiple(q0, q, n);
      assert false;
    } else if q < q0 {
      LowerMultiple(q, q0, n);
      assert false;
    }
  }

  /** A smaller multiplier leaves room for a whole `n` below the larger one. */
  lemma {:induction false} LowerMultiple(a: int, b: int, n: int)
    requires a < b && n > 0
    ensures a * n + n <= b * n
    decreases b - a
  {
    if a + 1 < b {
      LowerMultiple(a + 1, b, n);
    }
    assert (a + 1) * n == a * n + n;
  }
}
