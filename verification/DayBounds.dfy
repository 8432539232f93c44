/** The bounds of a tenant's civil day, found by binary search over the instants around it. */
module DayBounds {
  import opened Wrappers

  const DAY_MS: int := 86_400_000

  // Civil dates

  datatype CivilDate = CivilDate(year: int, month: int, day: int)

  predicate Leap(year: int) {
    year % 4 == 0 && (year % 100 != 0 || year % 400 == 0)
  }

  function MonthLength(year: int, month: int): int {
    if month == 2 then if Leap(year) then 29 else 28
    else if month == 4 || month == 6 || month == 9 || month == 11 then 30
    else 31
  }

  predicate ValidDate(d: CivilDate) {
    1 <= d.month <= 12 && 1 <= d.day <= MonthLength(d.year, d.month)
  }

  /** How date texts with four-digit years compare. */
  predicate Earlier(a: CivilDate, b: CivilDate) {
    a.year < b.year || (a.year == b.year && (a.month < b.month || (a.month == b.month && a.day < b.day)))
  }

  /** `addCivilDay`: a day past the month's end carries over. */
  function AddCivilDay(d: CivilDate): CivilDate {
    if d.day < MonthLength(d.year, d.month) then CivilDate(d.year, d.month, d.day + 1)
    else if d.month < 12 then CivilDate(d.year, d.month + 1, 1)
    else CivilDate(d.year + 1, 1, 1)
  }

  function DaysBeforeYear(year: int): int {
    365 * (year - 1) + (year - 1) / 4 - (year - 1) / 100 + (year - 1) / 400
  }

  function DaysBeforeMonth(year: int, month: int): int
    requires 1 <= month <= 13
    decreases month
  {
    if month == 1 then 0 else DaysBeforeMonth(year, month - 1) + MonthLength(year, month - 1)
  }

  const EPOCH_DAY: int := 719_162

  /** Days since 1970-01-01 in the proleptic Gregorian calendar. */
  function DayNumber(d: CivilDate): int
    requires ValidDate(d)
  {
    DaysBeforeYear(d.year) + DaysBeforeMonth(d.year, d.month) + d.day - 1 - EPOCH_DAY
  }

  /** `Date.UTC` of the date's midnight. */
  function Midnight(d: CivilDate): int
    requires ValidDate(d)
  {
    DAY_MS * DayNumber(d)
  }

  lemma FourthYears(n: int)
    ensures n / 4 == (n - 1) / 4 + if n % 4 == 0 then 1 else 0
  {
  }

  lemma Centuries(n: int)
    ensures n / 100 == (n - 1) / 100 + if n % 100 == 0 then 1 else 0
  {
  }

  lemma FourthCenturies(n: int)
    ensures n / 400 == (n - 1) / 400 + if n % 400 == 0 then 1 else 0
  {
  }

  lemma LeapDays(year: int)
    ensures (if year % 4 == 0 then 1 else 0) - (if year % 100 == 0 then 1 else 0) + (if year % 400 == 0 then 1 else 0)
         == if Leap(year) then 1 else 0
  {
    var centuries, fourths := year / 100, year / 400;
    if year % 400 == 0 {
      assert year == 100 * (4 * fourths);
    }
    if year % 100 == 0 {
      assert year == 4 * (25 * centuries);
    }
  }

  lemma NextYear(year: int)
    ensures DaysBeforeYear(year + 1) == DaysBeforeYear(year) + DaysBeforeMonth(year, 13)
  {
    MonthsOfYear(year);
    FourthYears(year);
    Centuries(year);
    FourthCenturies(year);
    LeapDays(year);
  }

  lemma MonthsOfYear(year: int)
    ensures DaysBeforeMonth(year, 13) == 365 + if Leap(year) then 1 else 0
  {
    assert DaysBeforeMonth(year, 3) == 31 + MonthLength(year, 2);
    assert DaysBeforeMonth(year, 5) == DaysBeforeMonth(year, 3) + 61;
    assert DaysBeforeMonth(year, 7) == DaysBeforeMonth(year, 5) + 61;
    assert DaysBeforeMonth(year, 9) == DaysBeforeMonth(year, 7) + 62;
    assert DaysBeforeMonth(year, 11) == DaysBeforeMonth(year, 9) + 61;
    assert DaysBeforeMonth(year, 13) == DaysBeforeMonth(year, 11) + 61;
  }

  /** The day after has the next number. */
  lemma NextDayNumber(d: CivilDate)
    requires ValidDate(d)
    ensures ValidDate(AddCivilDay(d)) && DayNumber(AddCivilDay(d)) == DayNumber(d) + 1
  {
    if d.day == MonthLength(d.year, d.month) && d.month == 12 {
      NextYear(d.year);
    }
  }

  lemma {:induction false} MonthsAscend(year: int, a: int, b: int)
    requires 1 <= a <= b <= 13
    ensures DaysBeforeMonth(year, a) + 28 * (b - a) <= DaysBeforeMonth(year, b)
    decreases b
  {
    if a < b {
      MonthsAscend(year, a, b - 1);
    }
  }

  lemma MonthFits(year: int, a: int, b: int)
    requires 1 <= a < b <= 13
    ensures DaysBeforeMonth(year, a) + MonthLength(year, a) <= DaysBeforeMonth(year, b)
  {
    MonthsAscend(year, a + 1, b);
    assert DaysBeforeMonth(year, a + 1) == DaysBeforeMonth(year, a) + MonthLength(year, a);
  }

  lemma {:induction false} YearsAscend(a: int, b: int)
    requires a <= b
    ensures DaysBeforeYear(a) + 365 * (b - a) <= DaysBeforeYear(b)
    decreases b - a
  {
    if a < b {
      YearsAscend(a, b - 1);
      NextYear(b - 1);
      MonthsOfYear(b - 1);
    }
  }

  lemma EarlierIsSmaller(a: CivilDate, b: CivilDate)
    requires ValidDate(a) && ValidDate(b) && Earlier(a, b)
    ensures DayNumber(a) < DayNumber(b)
  {
    if a.year < b.year {
      MonthFits(a.year, a.month, 13);
      NextYear(a.year);
      YearsAscend(a.year + 1, b.year);
      MonthsAscend(b.year, 1, b.month);
    } else if a.month < b.month {
      MonthFits(a.year, a.month, b.month);
    }
  }

  /** Date texts compare as day numbers do. */
  lemma EarlierIff(a: CivilDate, b: CivilDate)
    requires ValidDate(a) && ValidDate(b)
    ensures Earlier(a, b) <==> DayNumber(a) < DayNumber(b)
    ensures a == b <==> DayNumber(a) == DayNumber(b)
  {
    if Earlier(a, b) {
      EarlierIsSmaller(a, b);
    } else if Earlier(b, a) {
      EarlierIsSmaller(b, a);
    }
  }

  // The search

  /** The local date at each instant (in milliseconds), as the zone database has it. */
  type Zone = int -> CivilDate

  const SEARCH_MS: int := 48 * 60 * 60 * 1000

  // Zones that behave

  /** Local dates never go back, and are less than a day away from the date in UTC. */
  ghost predicate Regular(zone: Zone) {
    && (forall t :: ValidDate(zone(t)))
    && (forall s, t | s <= t :: DayNumber(zone(s)) <= DayNumber(zone(t)))
    && (forall t :: (t - DAY_MS) / DAY_MS <= DayNumber(zone(t)) <= (t + DAY_MS) / DAY_MS)
  }

  ghost predicate HasDay(zone: Zone, date: CivilDate) {
    exists t :: zone(t) == date
  }

  ghost predicate IsFirstInstant(zone: Zone, date: CivilDate, first: int) {
    zone(first) == date && forall t | t < first :: Earlier(zone(t), date)
  }

  /** The search window of a date reaches from before the date to after it. */
  lemma WindowHolds(zone: Zone, date: CivilDate)
    requires Regular(zone) && ValidDate(date)
    ensures Earlier(zone(Midnight(date) - SEARCH_MS), date) && Earlier(date, zone(Midnight(date) + SEARCH_MS))
  {
    EarlierIff(zone(Midnight(date) - SEARCH_MS), date);
    EarlierIff(date, zone(Midnight(date) + SEARCH_MS));
  }

  /** A search from `from` to `to` has narrowed to `low..high`: it began there, or the date is crossed between. */
  predicate Bracketed(zone: Zone, date: CivilDate, from: int, to: int, low: int, high: int) {
    && from <= low <= high <= to
    && (low == from || Earlier(zone(low - 1), date))
    && (high == to || !Earlier(zone(high), date))
  }

  /** Where the search ends, everything before is earlier and nothing after is. */
  lemma SearchEnds(zone: Zone, date: CivilDate, end: int)
    requires Regular(zone) && ValidDate(date)
    requires Bracketed(zone, date, Midnight(date) - SEARCH_MS, Midnight(date) + SEARCH_MS, end, end)
    ensures forall t | t < end :: Earlier(zone(t), date)
    ensures zone(end) != date ==> !HasDay(zone, date)
  {
    WindowHolds(zone, date);
    forall t
      ensures t < end ==> Earlier(zone(t), date)
      ensures t >= end && zone(end) != date ==> zone(t) != date
    {
      EarlierIff(zone(t), date);
      EarlierIff(zone(end), date);
      EarlierIff(zone(end - 1), date);
    }
  }

  /** The loop of `firstInstantOfDate`. */
  method Search(date: CivilDate, zone: Zone, from: int, to: int) returns (end: int)
    requires from <= to
    ensures Bracketed(zone, date, from, to, end, end)
  {
    var low, high := from, to;
    while low < high
      invariant Bracketed(zone, date, from, to, low, high)
    {
      var middle := (low + high) / 2;
      if Earlier(zone(middle), date) {
        low := middle + 1;
      } else {
        high := middle;
      }
    }
    end := low;
  }

  /**
  `firstInstantOfDate`; `None` is the error. Whatever the zone, the result is in the date, and either the instant
  before it is earlier or it is where the search began. In a regular zone it is the first instant of the date, and the
  error means that the zone skips the date.
  */
  method FirstInstantOfDate(date: CivilDate, zone: Zone) returns (first: Option<int>)
    requires ValidDate(date)
    ensures first.Some? ==>
              && zone(first.value) == date
              && Midnight(date) - SEARCH_MS <= first.value <= Midnight(date) + SEARCH_MS
              && (first.value == Midnight(date) - SEARCH_MS || Earlier(zone(first.value - 1), date))
    ensures Regular(zone) ==>
              && (first.Some? <==> HasDay(zone, date))
              && (first.Some? ==> IsFirstInstant(zone, date, first.value))
  {
    var center := Midnight(date);
    var end := Search(date, zone, center - SEARCH_MS, center + SEARCH_MS);
    if Regular(zone) {
      SearchEnds(zone, date, end);
    }
    first := if zone(end) != date then None else Some(end);
  }

  datatype Bounds = Bounds(localDate: CivilDate, start: int, end: int)

  /** The bounds of the instant's local day. */
  ghost predicate AreBounds(zone: Zone, instant: int, b: Bounds) {
    && b.localDate == zone(instant)
    && IsFirstInstant(zone, b.localDate, b.start)
    && IsFirstInstant(zone, AddCivilDay(b.localDate), b.end)
    && forall t :: b.start <= t < b.end <==> zone(t) == b.localDate
  }

  /**
  `tenantDayBounds`. In a regular zone an instant lies in the bounds exactly when its local date is the local date, and
  there are bounds exactly when the zone has the next civil day.
  */
  method TenantDayBounds(instant: int, zone: Zone) returns (bounds: Option<Bounds>)
    requires ValidDate(zone(instant))
    ensures bounds.Some? ==> bounds.value.localDate == zone(instant)
    ensures Regular(zone) ==>
              && (bounds.Some? <==> HasDay(zone, AddCivilDay(zone(instant))))
              && (bounds.Some? ==> AreBounds(zone, instant, bounds.value))
  {
    var localDate := zone(instant);
    NextDayNumber(localDate);
    var start := FirstInstantOfDate(localDate, zone);
    if start.None? {
      return None;
    }
    var end := FirstInstantOfDate(AddCivilDay(localDate), zone);
    if end.None? {
      return None;
    }
    if Regular(zone) {
      DayIsBetween(zone, localDate, start.value, end.value);
    }
    bounds := Some(Bounds(localDate, start.value, end.value));
  }

  lemma DayIsBetween(zone: Zone, date: CivilDate, start: int, end: int)
    requires Regular(zone) && ValidDate(date) && ValidDate(AddCivilDay(date))
    requires IsFirstInstant(zone, date, start) && IsFirstInstant(zone, AddCivilDay(date), end)
    ensures forall t :: start <= t < end <==> zone(t) == date
  {
    NextDayNumber(date);
    forall t
      ensures start <= t < end <==> zone(t) == date
    {
      EarlierIff(zone(t), date);
      EarlierIff(zone(t), AddCivilDay(date));
    }
  }

  lemma FirstIsLeast(zone: Zone, date: CivilDate, first: int, t: int)
    requires IsFirstInstant(zone, date, first) && zone(t) == date
    ensures first <= t
  {
  }

  /**
  The bounds computed for any two instants of a regular zone abut exactly when the second local date is the day after
  the first; they are equal for equal dates, and disjoint in date order otherwise.
  */
  lemma BoundsAbutIff(zone: Zone, i: int, a: Bounds, j: int, b: Bounds)
    requires Regular(zone) && AreBounds(zone, i, a) && AreBounds(zone, j, b)
    ensures a.end == b.start <==> b.localDate == AddCivilDay(a.localDate)
    ensures a.localDate == b.localDate ==> a == b
    ensures Earlier(a.localDate, b.localDate) ==> a.end <= b.start
  {
    NextDayNumber(a.localDate);
    EarlierIff(a.localDate, b.localDate);
    EarlierIff(b.localDate, AddCivilDay(a.localDate));
    if b.localDate == AddCivilDay(a.localDate) {
      FirstIsLeast(zone, b.localDate, a.end, b.start);
      FirstIsLeast(zone, b.localDate, b.start, a.end);
    }
    if a.localDate == b.localDate {
      FirstIsLeast(zone, a.localDate, a.start, b.start);
      FirstIsLeast(zone, a.localDate, b.start, a.start);
      FirstIsLeast(zone, AddCivilDay(a.localDate), a.end, b.end);
      FirstIsLeast(zone, AddCivilDay(a.localDate), b.end, a.end);
    }
  }
}
