/**
 Instants, wall clocks and time zones.

 An instant is a number of nanoseconds since the Unix epoch, the resolution of
 Go's time.Time. A wall-clock reading is the same kind of number, read as if it
 were UTC, so calendar days are `wall / DAY` and Go's day-of-month
 normalisation in time.Date is plain addition on day numbers.
 */
module Zones {

  const SECOND := 1_000_000_000
  const MINUTE := 60 * SECOND
  const HOUR := 60 * MINUTE
  const DAY := 24 * HOUR
  const WEEK := 7 * DAY

  /**
   A *time.Location: `offset(t)` is the UTC offset in force at instant `t`, and
   `date(w)` is the instant time.Date picks for the wall-clock reading `w`.
   */
  datatype Zone = Zone(offset: int -> int, date: int -> int)

  /** A zone whose UTC offset never changes. */
  function FixedZone(offset: int): Zone {
    Zone(t => offset, w => w - offset)
  }

  function Wall(z: Zone, t: int): int {
    t + z.offset(t)
  }

  function DayOf(wall: int): int {
    wall / DAY
  }

  /** time.Weekday of a day number: Sunday is 0, and day 0 (1970-01-01) was a Thursday. */
  function Weekday(day: int): int {
    (day + 4) % 7
  }

  /** The day number of the Monday that opens week number `week`. */
  function MondayOf(week: int): (day: int)
    ensures Weekday(day) == 1
  {
    7 * week + 4
  }

  /**
   The wall clock of `z` shows `w` at exactly one moment and passes it going
   forward: no offset change skips or repeats that reading.
   */
  ghost predicate ShownOnce(z: Zone, w: int) {
    && Wall(z, z.date(w)) == w
    && forall t {:trigger Wall(z, t)} :: Wall(z, t) >= w <==> t >= z.date(w)
  }

  /** time.Time.AddDate(0, 0, days): the same clock reading, `days` days on. */
  function AddDays(t: int, days: int, z: Zone): int {
    z.date(Wall(z, t) + days * DAY)
  }

  lemma FixedZoneShowsEveryReadingOnce(offset: int, w: int)
    ensures ShownOnce(FixedZone(offset), w)
  {
  }

  /** Wall-clock readings that are shown once keep their order as instants. */
  lemma ReadingsKeepOrder(z: Zone, w: int, w': int)
    requires ShownOnce(z, w) && ShownOnce(z, w') && w < w'
    ensures z.date(w) < z.date(w')
  {
    assert Wall(z, z.date(w)) < w';
  }
}
