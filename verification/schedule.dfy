/** The expiry check: the configured `END_DATE`, read as midnight UTC at the
    start of that day, compared with the current UTC time. */
module Schedule {

  /** A calendar date, as `datetime.strptime(end_date_str, '%Y-%m-%d')`
      produces it (no time component). */
  datatype Date = Date(year: int, month: int, day: int)

  const MicrosPerDay: nat := 86_400_000_000

  /** Microseconds elapsed since midnight: `datetime`'s time of day. */
  type MicrosOfDay = m: nat | m < MicrosPerDay

  /** A timezone-aware UTC datetime, at Python's microsecond resolution: a
      calendar date and the time of day. */
  datatype Instant = Instant(date: Date, micros: MicrosOfDay)

  /** Python's `datetime` ordering on dates: by year, then month, then day. */
  predicate DateBefore(a: Date, b: Date) {
    || a.year < b.year
    || (a.year == b.year && a.month < b.month)
    || (a.year == b.year && a.month == b.month && a.day < b.day)
  }

  /** Python's `datetime` ordering on aware UTC datetimes: by date, then by
      time of day. */
  predicate InstantBefore(a: Instant, b: Instant) {
    DateBefore(a.date, b.date) || (a.date == b.date && a.micros < b.micros)
  }

  /** `end_date.replace(tzinfo=timezone.utc)`: the parsed date at 00:00:00 UTC. */
  function Midnight(d: Date): (m: Instant)
    ensures m.date == d
    ensures forall t: MicrosOfDay :: !InstantBefore(Instant(d, t), m)
  {
    Instant(d, 0)
  }

  /** `current_date > end_date`: the scheduling window has closed. */
  predicate PastEndDate(now: Instant, end: Date) {
    InstantBefore(Midnight(end), now)
  }

  /** The instant ordering is a strict total order: exactly one of `a < b`,
      `a == b`, `b < a` holds, and it is transitive. */
  lemma InstantOrderIsStrictTotal(a: Instant, b: Instant, c: Instant)
    ensures !InstantBefore(a, a)
    ensures InstantBefore(a, b) && InstantBefore(b, c) ==> InstantBefore(a, c)
    ensures InstantBefore(a, b) || a == b || InstantBefore(b, a)
    ensures !(InstantBefore(a, b) && InstantBefore(b, a))
  {
  }

  /** The window is closed on every day after `END_DATE`, and on `END_DATE`
      itself from the first microsecond after midnight: the window ends at
      the START of the configured day, not at its end. */
  lemma PastEndDateIff(now: Instant, end: Date)
    ensures PastEndDate(now, end) <==> DateBefore(end, now.date) || (now.date == end && now.micros > 0)
  {
  }

  /** On the `END_DATE` day only the midnight instant itself is still open;
      every later instant of that day is past the end. */
  lemma WindowClosesAtStartOfEndDate(end: Date, micros: nat)
    requires 0 < micros < MicrosPerDay
    ensures !PastEndDate(Midnight(end), end)
    ensures PastEndDate(Instant(end, micros), end)
  {
  }

  /** Once the window has closed it stays closed: any later instant is also
      past the end. */
  lemma PastEndDateIsMonotone(now: Instant, later: Instant, end: Date)
    requires PastEndDate(now, end)
    requires InstantBefore(now, later)
    ensures PastEndDate(later, end)
  {
    InstantOrderIsStrictTotal(Midnight(end), now, later);
  }
}
