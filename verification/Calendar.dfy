/** The proleptic Gregorian calendar behind Python's `datetime`, and the clock
    arithmetic the dead-man deadline rests on. Leap years follow appendix C of
    RFC 3339 and month lengths its section 5.7. */
module Calendar {

  datatype DateTime = DateTime(year: int, month: int, day: int, hour: int, minute: int, second: int)

  const MAX_YEAR := 9999
  const DAY_SECONDS := 86400

  predicate IsLeap(year: int) {
    year % 4 == 0 && (year % 100 != 0 || year % 400 == 0)
  }

  function DaysInMonth(year: int, month: int): int
    requires 1 <= month <= 12
  {
    if month == 2 then (if IsLeap(year) then 29 else 28)
    else if month in {4, 6, 9, 11} then 30
    else 31
  }

  function YearLength(year: int): int {
    if IsLeap(year) then 366 else 365
  }

  predicate ProperDate(d: DateTime) {
    1 <= d.year && 1 <= d.month <= 12 && 1 <= d.day <= DaysInMonth(d.year, d.month)
  }

  predicate ProperTime(d: DateTime) {
    0 <= d.hour < 24 && 0 <= d.minute < 60 && 0 <= d.second < 60
  }

  predicate Proper(d: DateTime) {
    ProperDate(d) && ProperTime(d)
  }

  /** The values a Python `datetime` can hold. */
  predicate Representable(d: DateTime) {
    Proper(d) && d.year <= MAX_YEAR
  }

  // ---- Ordinals ----

  function DaysBeforeYear(year: int): (days: nat)
    requires 1 <= year
    ensures days >= year - 1
  {
    if year == 1 then 0 else DaysBeforeYear(year - 1) + YearLength(year - 1)
  }

  function DaysBeforeMonth(year: int, month: int): int
    requires 1 <= month <= 13
    decreases month
  {
    if month == 1 then 0 else DaysBeforeMonth(year, month - 1) + DaysInMonth(year, month - 1)
  }

  function DayNumber(d: DateTime): int
    requires ProperDate(d)
  {
    DaysBeforeYear(d.year) + DaysBeforeMonth(d.year, d.month) + d.day
  }

  /** Seconds from the start of day one of year one. */
  function ToSeconds(d: DateTime): int
    requires Proper(d)
  {
    (DayNumber(d) - 1) * DAY_SECONDS + d.hour * 3600 + d.minute * 60 + d.second
  }

  lemma MonthsFillTheYear(year: int)
    ensures DaysBeforeMonth(year, 13) == YearLength(year)
  {
    assert DaysBeforeMonth(year, 4) == 59 + DaysInMonth(year, 3) + DaysInMonth(year, 2) - 28;
    assert DaysBeforeMonth(year, 7) == DaysBeforeMonth(year, 4) + 91;
    assert DaysBeforeMonth(year, 10) == DaysBeforeMonth(year, 7) + 92;
    assert DaysBeforeMonth(year, 13) == DaysBeforeMonth(year, 10) + 92;
  }

  function YearOf(ordinal: int, from: int): (year: int)
    requires 1 <= from && DaysBeforeYear(from) < ordinal
    ensures from <= year
    ensures DaysBeforeYear(year) < ordinal <= DaysBeforeYear(year + 1)
    decreases ordinal - DaysBeforeYear(from)
  {
    if ordinal <= DaysBeforeYear(from + 1) then from else YearOf(ordinal, from + 1)
  }

  function MonthOf(year: int, dayOfYear: int, from: int): (month: int)
    requires 1 <= from <= 12
    requires DaysBeforeMonth(year, from) < dayOfYear <= DaysBeforeMonth(year, 13)
    ensures from <= month <= 12
    ensures DaysBeforeMonth(year, month) < dayOfYear <= DaysBeforeMonth(year, month + 1)
    decreases 13 - from
  {
    if dayOfYear <= DaysBeforeMonth(year, from + 1) then from else MonthOf(year, dayOfYear, from + 1)
  }

  function DateOf(ordinal: int, hour: int, minute: int, second: int): (d: DateTime)
    requires 1 <= ordinal
    ensures ProperDate(d) && DayNumber(d) == ordinal
    ensures d.hour == hour && d.minute == minute && d.second == second
  {
    var year := YearOf(ordinal, 1);
    MonthsFillTheYear(year);
    var dayOfYear := ordinal - DaysBeforeYear(year);
    var month := MonthOf(year, dayOfYear, 1);
    DateTime(year, month, dayOfYear - DaysBeforeMonth(year, month), hour, minute, second)
  }

  function FromSeconds(n: int): (d: DateTime)
    requires 0 <= n
    ensures Proper(d) && ToSeconds(d) == n
  {
    var clock := n % DAY_SECONDS;
    var minutes := clock / 60;
    DateOf(n / DAY_SECONDS + 1, minutes / 60, minutes % 60, clock % 60)
  }

  // ---- The odometer: an independent account of one second passing ----

  function NextDay(d: DateTime): (r: DateTime)
    requires ProperDate(d)
    ensures ProperDate(r)
  {
    if d.day < DaysInMonth(d.year, d.month) then DateTime(d.year, d.month, d.day + 1, 0, 0, 0)
    else if d.month < 12 then DateTime(d.year, d.month + 1, 1, 0, 0, 0)
    else DateTime(d.year + 1, 1, 1, 0, 0, 0)
  }

  /** One second later, carrying through minute, hour, day, month and year. */
  function Tick(d: DateTime): (r: DateTime)
    requires Proper(d)
    ensures Proper(r)
  {
    if d.second < 59 then d.(second := d.second + 1)
    else if d.minute < 59 then d.(minute := d.minute + 1, second := 0)
    else if d.hour < 23 then d.(hour := d.hour + 1, minute := 0, second := 0)
    else NextDay(d)
  }

  function Ticks(d: DateTime, n: nat): (r: DateTime)
    requires Proper(d)
    ensures Proper(r)
  {
    if n == 0 then d else Tick(Ticks(d, n - 1))
  }

  lemma NextDayAddsOne(d: DateTime)
    requires ProperDate(d)
    ensures DayNumber(NextDay(d)) == DayNumber(d) + 1
  {
    if d.month == 12 && d.day == 31 {
      MonthsFillTheYear(d.year);
      assert DaysBeforeMonth(d.year, 13) == DaysBeforeMonth(d.year, 12) + 31;
    }
  }

  /** The ordinal counts ticks: carrying across midnight, month end, 29 February
      and year end each adds exactly one. */
  lemma TickAddsOne(d: DateTime)
    requires Proper(d)
    ensures ToSeconds(Tick(d)) == ToSeconds(d) + 1
  {
    if d.second < 59 {
      assert DayNumber(Tick(d)) == DayNumber(d);
    } else if d.minute < 59 {
      assert DayNumber(Tick(d)) == DayNumber(d);
    } else if d.hour < 23 {
      assert DayNumber(Tick(d)) == DayNumber(d);
    } else {
      NextDayAddsOne(d);
    }
  }

  lemma {:induction false} TicksAddUp(d: DateTime, n: nat)
    requires Proper(d)
    ensures ToSeconds(Ticks(d, n)) == ToSeconds(d) + n
  {
    if n > 0 {
      TicksAddUp(d, n - 1);
      TickAddsOne(Ticks(d, n - 1));
    }
  }

  // ---- The ordinal is a bijection ----

  lemma {:induction false} YearsDoNotOverlap(a: int, b: int)
    requires 1 <= a < b
    ensures DaysBeforeYear(a + 1) <= DaysBeforeYear(b)
    decreases b - a
  {
    if a + 1 < b {
      YearsDoNotOverlap(a, b - 1);
    }
  }

  lemma {:induction false} MonthsDoNotOverlap(year: int, a: int, b: int)
    requires 1 <= a < b <= 13
    ensures DaysBeforeMonth(year, a + 1) <= DaysBeforeMonth(year, b)
    decreases b
  {
    if a + 1 < b {
      MonthsDoNotOverlap(year, a, b - 1);
    }
  }

  lemma DayWithinYear(d: DateTime)
    requires ProperDate(d)
    ensures DaysBeforeYear(d.year) < DayNumber(d) <= DaysBeforeYear(d.year + 1)
  {
    MonthsFillTheYear(d.year);
    if d.month < 12 {
      MonthsDoNotOverlap(d.year, d.month, 13);
    }
    MonthStartsNonNegative(d.year, d.month);
  }

  lemma {:induction false} MonthStartsNonNegative(year: int, month: int)
    requires 1 <= month <= 13
    ensures DaysBeforeMonth(year, month) >= 0
    decreases month
  {
    if month > 1 {
      MonthStartsNonNegative(year, month - 1);
    }
  }

  lemma ToSecondsInjective(a: DateTime, b: DateTime)
    requires Proper(a) && Proper(b) && ToSeconds(a) == ToSeconds(b)
    ensures a == b
  {
    SplitSeconds(a);
    SplitSeconds(b);
    DayWithinYear(a);
    DayWithinYear(b);
    if a.year < b.year {
      YearsDoNotOverlap(a.year, b.year);
    } else if b.year < a.year {
      YearsDoNotOverlap(b.year, a.year);
    } else if a.month < b.month {
      MonthsDoNotOverlap(a.year, a.month, b.month);
    } else if b.month < a.month {
      MonthsDoNotOverlap(a.year, b.month, a.month);
    }
  }

  lemma SplitSeconds(d: DateTime)
    requires Proper(d)
    ensures ToSeconds(d) / DAY_SECONDS == DayNumber(d) - 1
    ensures ToSeconds(d) % DAY_SECONDS == d.hour * 3600 + d.minute * 60 + d.second
  {
    var clock := d.hour * 3600 + d.minute * 60 + d.second;
    assert 0 <= clock < DAY_SECONDS;
  }

  lemma ToSecondsNonNegative(d: DateTime)
    requires Proper(d)
    ensures 0 <= ToSeconds(d)
  {
    DayWithinYear(d);
    if 1 < d.year {
      YearsDoNotOverlap(1, d.year);
    }
  }

  /** `datetime + timedelta(seconds=n)`: Overflow is Python's OverflowError. */
  datatype Later = At(when: DateTime) | Overflow

  function AddSeconds(d: DateTime, n: nat): Later
    requires Proper(d)
  {
    ToSecondsNonNegative(d);
    var later := FromSeconds(ToSeconds(d) + n);
    if later.year <= MAX_YEAR then At(later) else Overflow
  }

  lemma FromSecondsUndoes(d: DateTime)
    requires Proper(d)
    ensures 0 <= ToSeconds(d) && FromSeconds(ToSeconds(d)) == d
  {
    ToSecondsNonNegative(d);
    var back := FromSeconds(ToSeconds(d));
    ToSecondsInjective(d, back);
  }

  /** Adding n seconds is n odometer ticks, and overflows exactly when the
      odometer leaves year 9999. */
  lemma AddSecondsIsTicking(d: DateTime, n: nat)
    requires Representable(d)
    ensures ToSeconds(Ticks(d, n)) == ToSeconds(d) + n
    ensures AddSeconds(d, n) == if Ticks(d, n).year <= MAX_YEAR then At(Ticks(d, n)) else Overflow
  {
    var later := Ticks(d, n);
    TicksAddUp(d, n);
    FromSecondsUndoes(later);
    ToSecondsNonNegative(d);
  }
}
