/** Turning the relative date a review shows ("3 weeks ago") into an
    absolute review date, from a reference instant (the time of scraping). */
module RelativeDates {
  import opened Wrappers
  import opened Strings
  import opened Calendar

  datatype Unit = Day | Week | Month | Year

  /** The unit words are looked for anywhere in the text, in the order
      day, week, month, year; the first one found decides. */
  function UnitOf(text: string): Option<Unit> {
    if Contains(text, "day") then Some(Day)
    else if Contains(text, "week") then Some(Week)
    else if Contains(text, "month") then Some(Month)
    else if Contains(text, "year") then Some(Year)
    else None
  }

  /** `int(text.split()[0])`, None where that raises. */
  function Magnitude(text: string): Option<int> {
    match FirstWord(text)
    case None => None
    case Some(w) => ParseInt(w)
  }

  /** The magnitude is read from the first word alone. */
  lemma MagnitudeOf(w: string, rest: string)
    requires w != [] && NoSpace(w)
    requires rest == [] || IsSpace(rest[0])
    ensures Magnitude(w + rest) == ParseInt(w)
  {
    assert w + rest == [] + w + rest;
    FirstWordOf([], w, rest);
  }

  /** The reference moved back by `n` units: days and weeks as fixed
      durations, months and years as calendar steps with the day clamped.
      The time of day is kept. The year may leave Python's range here. */
  function ShiftBack(reference: DateTime, u: Unit, n: int): (r: DateTime)
    requires ValidDate(reference.date)
    ensures ValidDate(r.date) && r.micros == reference.micros
  {
    var d := match u
      case Day => AddDays(reference.date, -n)
      case Week => AddDays(reference.date, -7 * n)
      case Month => AddMonths(reference.date, -n)
      case Year => AddYears(reference.date, -n);
    DateTime(d, reference.micros)
  }

  /** The two date fields of a parsed review. */
  datatype DateFields = DateFields(relativeDate: Option<string>, reviewDate: Option<DateTime>)

  /** The date fields of a review whose relative-date span has text `text`
      (None when the span is missing). Any failure (no span, a unit without
      an integer first word, a result outside years 1..9999) clears both
      fields; a text with no unit word dates the review at the reference. */
  function Normalize(text: Option<string>, reference: DateTime): (r: DateFields)
    requires ValidDateTime(reference)
    ensures r.relativeDate.Some? <==> r.reviewDate.Some?
    ensures r.relativeDate.Some? ==> r.relativeDate == text
    ensures r.reviewDate.Some? ==> ValidDateTime(r.reviewDate.value)
    ensures r.reviewDate.Some? ==> r.reviewDate.value.micros == reference.micros
  {
    match text
    case None => DateFields(None, None)
    case Some(t) =>
      match UnitOf(t)
      case None => DateFields(Some(t), Some(reference))
      case Some(u) =>
        match Magnitude(t)
        case None => DateFields(None, None)
        case Some(n) =>
          var d := ShiftBack(reference, u, n);
          if InRange(d.date) then DateFields(Some(t), Some(d)) else DateFields(None, None)
  }

  /** "n days": the review day is exactly `n` days before the reference day,
      or the fields are cleared when no representable day is. */
  lemma DaysBack(t: string, reference: DateTime, n: int)
    requires ValidDateTime(reference)
    requires Contains(t, "day") && Magnitude(t) == Some(n)
    ensures var r := Normalize(Some(t), reference);
      && (r.reviewDate.Some? ==> Ordinal(r.reviewDate.value.date) == Ordinal(reference.date) - n)
      && (r.reviewDate.None? <==>
            forall d :: ValidDate(d) && Ordinal(d) == Ordinal(reference.date) - n ==> !InRange(d))
  {
    var d := AddDays(reference.date, -n);
    forall e | ValidDate(e) && Ordinal(e) == Ordinal(reference.date) - n
      ensures e == d
    {
      OrdinalOrder(e, d);
    }
  }

  /** "n weeks" (and no "day"): exactly `7 n` days before the reference day. */
  lemma WeeksBack(t: string, reference: DateTime, n: int)
    requires ValidDateTime(reference)
    requires !Contains(t, "day") && Contains(t, "week") && Magnitude(t) == Some(n)
    ensures var r := Normalize(Some(t), reference);
      && (r.reviewDate.Some? ==> Ordinal(r.reviewDate.value.date) == Ordinal(reference.date) - 7 * n)
      && (r.reviewDate.None? <==>
            forall d :: ValidDate(d) && Ordinal(d) == Ordinal(reference.date) - 7 * n ==> !InRange(d))
  {
    var d := AddDays(reference.date, -7 * n);
    forall e | ValidDate(e) && Ordinal(e) == Ordinal(reference.date) - 7 * n
      ensures e == d
    {
      OrdinalOrder(e, d);
    }
  }

  /** "n months" (and neither "day" nor "week"): `n` calendar months back,
      keeping the day of the month unless the target month is shorter. */
  lemma MonthsBack(t: string, reference: DateTime, n: int)
    requires ValidDateTime(reference)
    requires !Contains(t, "day") && !Contains(t, "week") && Contains(t, "month")
    requires Magnitude(t) == Some(n)
    ensures var r := Normalize(Some(t), reference);
      && (r.reviewDate.Some? ==>
            && MonthIndex(r.reviewDate.value.date) == MonthIndex(reference.date) - n
            && r.reviewDate.value.date.day
               == Min(reference.date.day, DaysInMonth(r.reviewDate.value.date.year, r.reviewDate.value.date.month)))
      && (r.reviewDate.None? <==> !InRange(AddMonths(reference.date, -n)))
  {
    var d := AddMonths(reference.date, -n);
    assert UnitOf(t) == Some(Month);
    assert Normalize(Some(t), reference)
        == if InRange(d) then DateFields(Some(t), Some(DateTime(d, reference.micros)))
           else DateFields(None, None);
  }

  /** "n years" (and no other unit word): the same month `n` years back,
      29 February becoming 28 February in a common year. */
  lemma YearsBack(t: string, reference: DateTime, n: int)
    requires ValidDateTime(reference)
    requires !Contains(t, "day") && !Contains(t, "week") && !Contains(t, "month") && Contains(t, "year")
    requires Magnitude(t) == Some(n)
    ensures var r := Normalize(Some(t), reference);
      && (r.reviewDate.Some? ==>
            && r.reviewDate.value.date.year == reference.date.year - n
            && r.reviewDate.value.date.month == reference.date.month
            && r.reviewDate.value.date.day
               == Min(reference.date.day, DaysInMonth(reference.date.year - n, reference.date.month)))
      && (r.reviewDate.None? <==> !(MIN_YEAR <= reference.date.year - n <= MAX_YEAR))
  {
    var d := AddYears(reference.date, -n);
    assert UnitOf(t) == Some(Year);
    assert Normalize(Some(t), reference)
        == if InRange(d) then DateFields(Some(t), Some(DateTime(d, reference.micros)))
           else DateFields(None, None);
  }

  /** A text with no unit word keeps its text and is dated at the reference. */
  lemma NoUnitWord(t: string, reference: DateTime)
    requires ValidDateTime(reference)
    requires !Contains(t, "day") && !Contains(t, "week") && !Contains(t, "month") && !Contains(t, "year")
    ensures Normalize(Some(t), reference) == DateFields(Some(t), Some(reference))
  {
  }

  /** A unit word without an integer first word clears both fields. */
  lemma NoMagnitude(t: string, reference: DateTime)
    requires ValidDateTime(reference)
    requires UnitOf(t).Some? && Magnitude(t).None?
    ensures Normalize(Some(t), reference) == DateFields(None, None)
  {
  }

  /** A missing span clears both fields. */
  lemma NoSpan(reference: DateTime)
    requires ValidDateTime(reference)
    ensures Normalize(None, reference) == DateFields(None, None)
  {
  }

  /** Moving back by a non-negative amount of any unit never moves forward. */
  lemma ShiftBackNotAfter(reference: DateTime, u: Unit, n: int)
    requires ValidDate(reference.date) && n >= 0
    ensures NotAfter(ShiftBack(reference, u, n), reference)
  {
    match u
    case Day => AddDaysBack(reference.date, n);
    case Week => AddDaysBack(reference.date, 7 * n);
    case Month => AddMonthsBack(reference.date, n);
    case Year =>
      AddYearsIsTwelveMonths(reference.date, -n);
      AddMonthsBack(reference.date, 12 * n);
  }

  /** With a non-negative magnitude the review date never lies after the
      reference instant. */
  lemma NotAfterReference(t: string, reference: DateTime)
    requires ValidDateTime(reference)
    requires Magnitude(t).Some? ==> Magnitude(t).value >= 0
    ensures var r := Normalize(Some(t), reference);
      r.reviewDate.Some? ==> NotAfter(r.reviewDate.value, reference)
  {
    if UnitOf(t).Some? && Magnitude(t).Some? {
      ShiftBackNotAfter(reference, UnitOf(t).value, Magnitude(t).value);
    }
  }

  /** "a week ago", "a month ago", "a year ago", as the site writes a
      single unit, have no integer first word, so both date fields are
      cleared. */
  lemma SingleUnitCleared(rest: string, reference: DateTime)
    requires ValidDateTime(reference)
    requires rest == [] || IsSpace(rest[0])
    requires UnitOf("a" + rest).Some?
    ensures Normalize(Some("a" + rest), reference) == DateFields(None, None)
  {
    MagnitudeOf("a", rest);
    assert ParseInt("a") == None by {
      StripUnpadded("a");
    }
  }
}
