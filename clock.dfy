/**
 * Instants are whole seconds since the Unix epoch, in UTC. A wall-clock reading in some
 * timezone is the instant shifted by that zone's UTC offset at that instant.
 */
module Clock {

  const Day: int := 86400
  const Week: int := 7 * Day

  /** Midnight UTC of the day holding `t` (what `datetime.replace` keeps when it resets the clock fields). */
  function StartOfDay(t: int): (s: int)
    ensures s <= t < s + Day
    ensures s % Day == 0
  {
    t - t % Day
  }

  /** Seconds elapsed since midnight, for a wall-clock reading `t`. */
  function TimeOfDay(t: int): (c: int)
    ensures 0 <= c < Day
    ensures StartOfDay(t) + c == t
  {
    t % Day
  }

  /** The `hour` field of a UTC datetime. */
  function HourOf(t: int): (h: int)
    ensures 0 <= h < 24
  {
    TimeOfDay(t) / 3600
  }

  /** The `minute` field of a UTC datetime. */
  function MinuteOf(t: int): (m: int)
    ensures 0 <= m < 60
  {
    (TimeOfDay(t) % 3600) / 60
  }

  /** The `second` field of a UTC datetime. */
  function SecondOf(t: int): (s: int)
    ensures 0 <= s < 60
  {
    TimeOfDay(t) % 60
  }

  /** A clock time placed after a midnight is read back unchanged. */
  lemma TimeOfDayAfterMidnight(midnight: int, c: int)
    requires midnight % Day == 0
    requires 0 <= c < Day
    ensures TimeOfDay(midnight + c) == c
    ensures StartOfDay(midnight + c) == midnight
  {
    var q := midnight / Day;
    assert midnight == q * Day;
    var t := midnight + c;
    var q' := t / Day;
    assert t == q' * Day + t % Day;
    assert (q' - q) * Day == c - t % Day;
  }

  /** A clock time built from an hour and a minute reads back as that hour and minute, with no seconds. */
  lemma ClockFieldsOf(h: int, m: int)
    requires 0 <= h < 24 && 0 <= m < 60
    ensures 0 <= h * 3600 + m * 60 < Day
    ensures (h * 3600 + m * 60) / 3600 == h
    ensures ((h * 3600 + m * 60) % 3600) / 60 == m
    ensures (h * 3600 + m * 60) % 60 == 0
  {
  }
}
