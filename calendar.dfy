/** Proleptic Gregorian calendar arithmetic as Python's `datetime` (fixed
    day offsets) and dateutil's `relativedelta` (calendar months and years,
    day clamped to the target month) perform it. */
module Calendar {

  /** Python's `datetime.MINYEAR` and `datetime.MAXYEAR`: a result outside
      this range raises instead of producing a date. */
  const MIN_YEAR := 1
  const MAX_YEAR := 9999
  const MICROS_PER_DAY := 86400000000

  datatype Date = Date(year: int, month: int, day: int)

  /** A naive `datetime`: a date and the microseconds elapsed since midnight. */
  datatype DateTime = DateTime(date: Date, micros: int)

  predicate IsLeap(y: int) {
    y % 4 == 0 && (y % 100 != 0 || y % 400 == 0)
  }

  function DaysInMonth(y: int, m: int): int
    requires 1 <= m <= 12
  {
    if m == 2 then (if IsLeap(y) then 29 else 28)
    else if m == 4 || m == 6 || m == 9 || m == 11 then 30
    else 31
  }

  function DaysInYear(y: int): int {
    if IsLeap(y) then 366 else 365
  }

  /** A real calendar day, in any year. */
  predicate ValidDate(d: Date) {
    1 <= d.month <= 12 && 1 <= d.day <= DaysInMonth(d.year, d.month)
  }

  /** A day Python's `date` can represent. */
  predicate InRange(d: Date) {
    MIN_YEAR <= d.year <= MAX_YEAR
  }

  predicate ValidDateTime(t: DateTime) {
    ValidDate(t.date) && InRange(t.date) && 0 <= t.micros < MICROS_PER_DAY
  }

  /** Calendar order on days. */
  predicate Before(a: Date, b: Date) {
    || a.year < b.year
    || (a.year == b.year && a.month < b.month)
    || (a.year == b.year && a.month == b.month && a.day < b.day)
  }

  /** Order on instants: `a <= b` in Python. */
  predicate NotAfter(a: DateTime, b: DateTime) {
    Before(a.date, b.date) || (a.date == b.date && a.micros <= b.micros)
  }

  // ---------------------------------------------------------------------
  // Day numbers (`date.toordinal()`)

  function DaysBeforeMonth(y: int, m: int): int
    requires 1 <= m <= 13
  {
    var common :=
      if m == 1 then 0 else if m == 2 then 31 else if m == 3 then 59
      else if m == 4 then 90 else if m == 5 then 120 else if m == 6 then 151
      else if m == 7 then 181 else if m == 8 then 212 else if m == 9 then 243
      else if m == 10 then 273 else if m == 11 then 304 else if m == 12 then 334
      else 365;
    common + (if m > 2 && IsLeap(y) then 1 else 0)
  }

  function DaysBeforeYear(y: int): int
    decreases if y >= 1 then y - 1 else 1 - y
  {
    if y == 1 then 0
    else if y > 1 then DaysBeforeYear(y - 1) + DaysInYear(y - 1)
    else DaysBeforeYear(y + 1) - DaysInYear(y)
  }

  /** Python's `date.toordinal()`: 0001-01-01 is day 1. */
  function Ordinal(d: Date): int
    requires ValidDate(d)
  {
    DaysBeforeYear(d.year) + DaysBeforeMonth(d.year, d.month) + d.day
  }

  lemma MonthStep(y: int, m: int)
    requires 1 <= m <= 12
    ensures DaysBeforeMonth(y, m + 1) == DaysBeforeMonth(y, m) + DaysInMonth(y, m)
    ensures DaysBeforeMonth(y, 13) == DaysInYear(y)
  {
  }

  lemma YearStep(y: int)
    ensures DaysBeforeYear(y + 1) == DaysBeforeYear(y) + DaysInYear(y)
  {
  }

  lemma {:induction false} DaysBeforeMonthMono(y: int, m1: int, m2: int)
    requires 1 <= m1 < m2 <= 13
    ensures DaysBeforeMonth(y, m1) + DaysInMonth(y, m1) <= DaysBeforeMonth(y, m2)
    decreases m2 - m1
  {
    MonthStep(y, m1);
    if m1 + 1 < m2 {
      DaysBeforeMonthMono(y, m1 + 1, m2);
    }
  }

  lemma {:induction false} DaysBeforeYearMono(y1: int, y2: int)
    requires y1 < y2
    ensures DaysBeforeYear(y1) + DaysInYear(y1) <= DaysBeforeYear(y2)
    decreases y2 - y1
  {
    YearStep(y1);
    if y1 + 1 < y2 {
      DaysBeforeYearMono(y1 + 1, y2);
    }
  }

  /** A day's number lies within its year. */
  lemma OrdinalWithinYear(d: Date)
    requires ValidDate(d)
    ensures DaysBeforeYear(d.year) < Ordinal(d) <= DaysBeforeYear(d.year) + DaysInYear(d.year)
  {
    if d.month < 12 {
      DaysBeforeMonthMono(d.year, d.month, 13);
    }
    MonthStep(d.year, d.month);
  }

  lemma OrdinalIncreasing(a: Date, b: Date)
    requires ValidDate(a) && ValidDate(b) && Before(a, b)
    ensures Ordinal(a) < Ordinal(b)
  {
    if a.year < b.year {
      OrdinalWithinYear(a);
      OrdinalWithinYear(b);
      DaysBeforeYearMono(a.year, b.year);
    } else if a.month < b.month {
      DaysBeforeMonthMono(a.year, a.month, b.month);
    }
  }

  /** Day numbers follow calendar order exactly, so they name days uniquely. */
  lemma OrdinalOrder(a: Date, b: Date)
    requires ValidDate(a) && ValidDate(b)
    ensures Before(a, b) <==> Ordinal(a) < Ordinal(b)
    ensures a == b <==> Ordinal(a) == Ordinal(b)
  {
    if Before(a, b) {
      OrdinalIncreasing(a, b);
    } else if Before(b, a) {
      OrdinalIncreasing(b, a);
    }
  }

  // ---------------------------------------------------------------------
  // Fixed day offsets (`datetime - timedelta(days=n)`)

  function NextDay(d: Date): (r: Date)
    requires ValidDate(d)
    ensures ValidDate(r) && Ordinal(r) == Ordinal(d) + 1
  {
    if d.day < DaysInMonth(d.year, d.month) then d.(day := d.day + 1)
    else if d.month < 12 then
      MonthStep(d.year, d.month);
      Date(d.year, d.month + 1, 1)
    else
      MonthStep(d.year, 12);
      YearStep(d.year);
      Date(d.year + 1, 1, 1)
  }

  function PrevDay(d: Date): (r: Date)
    requires ValidDate(d)
    ensures ValidDate(r) && Ordinal(r) == Ordinal(d) - 1
  {
    if d.day > 1 then d.(day := d.day - 1)
    else if d.month > 1 then
      MonthStep(d.year, d.month - 1);
      Date(d.year, d.month - 1, DaysInMonth(d.year, d.month - 1))
    else
      MonthStep(d.year - 1, 12);
      YearStep(d.year - 1);
      Date(d.year - 1, 12, 31)
  }

  /** The day `k` days after `d` (before it when `k` is negative). */
  function AddDays(d: Date, k: int): (r: Date)
    requires ValidDate(d)
    ensures ValidDate(r) && Ordinal(r) == Ordinal(d) + k
    decreases if k >= 0 then k else -k
  {
    if k == 0 then d
    else if k > 0 then AddDays(NextDay(d), k - 1)
    else AddDays(PrevDay(d), k + 1)
  }

  /** Moving by `a` days and then by `b` days is moving by `a + b` days. */
  lemma AddDaysCompose(d: Date, a: int, b: int)
    requires ValidDate(d)
    ensures AddDays(AddDays(d, a), b) == AddDays(d, a + b)
  {
    OrdinalOrder(AddDays(AddDays(d, a), b), AddDays(d, a + b));
  }

  /** Moving back by a non-negative number of days never moves forward. */
  lemma AddDaysBack(d: Date, n: int)
    requires ValidDate(d) && n >= 0
    ensures AddDays(d, -n) == d || Before(AddDays(d, -n), d)
  {
    OrdinalOrder(AddDays(d, -n), d);
  }

  // ---------------------------------------------------------------------
  // Calendar months and years (`relativedelta(months=k)`, `relativedelta(years=k)`)

  /** Months counted from year 0, January. */
  function MonthIndex(d: Date): int {
    d.year * 12 + d.month - 1
  }

  function Min(a: int, b: int): int {
    if a <= b then a else b
  }

  /** `d + relativedelta(months=k)`: the month moves by `k`, the day is kept
      unless the target month is shorter, in which case it becomes that
      month's last day. */
  function AddMonths(d: Date, k: int): (r: Date)
    requires ValidDate(d)
    ensures ValidDate(r)
    ensures MonthIndex(r) == MonthIndex(d) + k
    ensures r.day == Min(d.day, DaysInMonth(r.year, r.month))
  {
    var i := MonthIndex(d) + k;
    var y, m := i / 12, i % 12 + 1;
    Date(y, m, Min(d.day, DaysInMonth(y, m)))
  }

  /** `d + relativedelta(years=k)`: same month, day clamped (29 February
      becomes 28 February in a common year). */
  function AddYears(d: Date, k: int): (r: Date)
    requires ValidDate(d)
    ensures ValidDate(r)
    ensures r.year == d.year + k && r.month == d.month
    ensures r.day == Min(d.day, DaysInMonth(r.year, r.month))
  {
    Date(d.year + k, d.month, Min(d.day, DaysInMonth(d.year + k, d.month)))
  }

  /** `relativedelta(years=k)` is `relativedelta(months=12 * k)`. */
  lemma AddYearsIsTwelveMonths(d: Date, k: int)
    requires ValidDate(d)
    ensures AddYears(d, k) == AddMonths(d, 12 * k)
  {
    var i := MonthIndex(d) + 12 * k;
    assert i == (d.year + k) * 12 + (d.month - 1);
    assert i / 12 == d.year + k && i % 12 == d.month - 1;
  }

  /** A day of the month that exists in the target month is kept. */
  lemma AddMonthsKeepsDay(d: Date, k: int)
    requires ValidDate(d)
    requires d.day <= DaysInMonth(AddMonths(d, k).year, AddMonths(d, k).month)
    ensures AddMonths(d, k).day == d.day
  {
  }

  /** Moving back by a non-negative number of months never moves forward. */
  lemma AddMonthsBack(d: Date, n: int)
    requires ValidDate(d) && n >= 0
    ensures AddMonths(d, -n) == d || Before(AddMonths(d, -n), d)
  {
    var r := AddMonths(d, -n);
    if n == 0 {
      assert r.year == d.year && r.month == d.month;
    } else {
      assert MonthIndex(r) < MonthIndex(d);
      assert r.year < d.year || (r.year == d.year && r.month < d.month);
    }
  }
}
