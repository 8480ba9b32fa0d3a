/** Naive (zone-less) times of day, calendar dates and date-times, with the two
    operations the trivia loop relies on: Python's ordering of `time` values
    and adding or subtracting a whole number of hours from a `datetime`. */
module Clock {

  const MinutesPerDay: int := 1440
  const MicrosPerHour: int := 3600000000
  const MicrosPerDay: int := 86400000000

  /** A naive `datetime.time`. */
  datatype TimeOfDay = TimeOfDay(hour: int, minute: int, second: int, microsecond: int)

  predicate Valid(t: TimeOfDay)
  {
    && 0 <= t.hour < 24
    && 0 <= t.minute < 60
    && 0 <= t.second < 60
    && 0 <= t.microsecond < 1000000
  }

  const Midnight: TimeOfDay := TimeOfDay(0, 0, 0, 0)

  /** Whole minutes since midnight; seconds are ignored. */
  function MinuteOfDay(t: TimeOfDay): int
  {
    60 * t.hour + t.minute
  }

  /** Microseconds since midnight. */
  function Micros(t: TimeOfDay): int
  {
    ((60 * t.hour + t.minute) * 60 + t.second) * 1000000 + t.microsecond
  }

  /** `a >= b` on two naive `time` values: Python compares them field by
      field, hour first. */
  function AtOrAfter(a: TimeOfDay, b: TimeOfDay): (r: bool)
    // `>=` holds at the fire time itself
    ensures a == b ==> r
  {
    if a.hour != b.hour then a.hour > b.hour
    else if a.minute != b.minute then a.minute > b.minute
    else if a.second != b.second then a.second > b.second
    else a.microsecond >= b.microsecond
  }

  /** The field-by-field order is the order of the instants within the day. */
  lemma AtOrAfterIsLater(a: TimeOfDay, b: TimeOfDay)
    requires Valid(a) && Valid(b)
    ensures AtOrAfter(a, b) <==> Micros(a) >= Micros(b)
  {
    var sa := (a.hour * 60 + a.minute) * 60 + a.second;
    var sb := (b.hour * 60 + b.minute) * 60 + b.second;
    assert Micros(a) == sa * 1000000 + a.microsecond;
    assert Micros(b) == sb * 1000000 + b.microsecond;
    SecondsOrder(a, b);
    if sa != sb {
      if sa > sb {
        assert sa * 1000000 >= sb * 1000000 + 1000000;
      } else {
        assert sb * 1000000 >= sa * 1000000 + 1000000;
      }
    }
  }

  /** On the whole-second part the field-by-field order agrees with the
      count of seconds since midnight. */
  lemma SecondsOrder(a: TimeOfDay, b: TimeOfDay)
    requires Valid(a) && Valid(b)
    ensures var sa := (a.hour * 60 + a.minute) * 60 + a.second;
            var sb := (b.hour * 60 + b.minute) * 60 + b.second;
            && (sa == sb <==> (a.hour == b.hour && a.minute == b.minute && a.second == b.second))
            && (sa > sb <==> (a.hour > b.hour
                              || (a.hour == b.hour && a.minute > b.minute)
                              || (a.hour == b.hour && a.minute == b.minute && a.second > b.second)))
  {
    var ma := a.hour * 60 + a.minute;
    var mb := b.hour * 60 + b.minute;
    assert ma == mb <==> (a.hour == b.hour && a.minute == b.minute);
    assert ma > mb <==> (a.hour > b.hour || (a.hour == b.hour && a.minute > b.minute));
  }

  /** A calendar date, as its proleptic Gregorian ordinal (`date.toordinal()`). */
  datatype Date = Date(ordinal: int)

  /** A naive `datetime`. */
  datatype DateTime = DateTime(date: Date, time: TimeOfDay)

  /** The instant a date-time denotes, in microseconds on one time line. */
  function Instant(dt: DateTime): int
  {
    dt.date.ordinal * MicrosPerDay + Micros(dt.time)
  }

  /** `dt - timedelta(hours=k)` for 0 <= k <= 24: the hour field borrows a day
      from the date when it would go negative. */
  function MinusHours(dt: DateTime, k: int): (r: DateTime)
    requires Valid(dt.time) && 0 <= k <= 24
    ensures Valid(r.time)
    ensures Instant(r) == Instant(dt) - k * MicrosPerHour
    ensures r.time.minute == dt.time.minute && r.time.second == dt.time.second
    ensures r.time.microsecond == dt.time.microsecond
    ensures MinuteOfDay(r.time) == (MinuteOfDay(dt.time) - 60 * k) % MinutesPerDay
  {
    var t := dt.time;
    if t.hour >= k then
      DateTime(dt.date, t.(hour := t.hour - k))
    else
      DateTime(Date(dt.date.ordinal - 1), t.(hour := t.hour + 24 - k))
  }

  /** `dt + timedelta(hours=k)` for 0 <= k <= 24: the hour field carries a day
      into the date when it reaches 24. */
  function PlusHours(dt: DateTime, k: int): (r: DateTime)
    requires Valid(dt.time) && 0 <= k <= 24
    ensures Valid(r.time)
    ensures Instant(r) == Instant(dt) + k * MicrosPerHour
    ensures r.time.minute == dt.time.minute && r.time.second == dt.time.second
    ensures r.time.microsecond == dt.time.microsecond
    ensures MinuteOfDay(r.time) == (MinuteOfDay(dt.time) + 60 * k) % MinutesPerDay
  {
    var t := dt.time;
    if t.hour + k < 24 then
      DateTime(dt.date, t.(hour := t.hour + k))
    else
      DateTime(Date(dt.date.ordinal + 1), t.(hour := t.hour + k - 24))
  }

  /** Two valid date-times denoting the same instant are equal. */
  lemma InstantDetermines(a: DateTime, b: DateTime)
    requires Valid(a.time) && Valid(b.time)
    requires Instant(a) == Instant(b)
    ensures a == b
  {
    assert 0 <= Micros(a.time) < MicrosPerDay;
    assert 0 <= Micros(b.time) < MicrosPerDay;
    assert a.date == b.date;
    AtOrAfterIsLater(a.time, b.time);
    AtOrAfterIsLater(b.time, a.time);
  }

  /** Subtracting and then adding back the same number of hours is the
      identity, and so is the reverse. */
  lemma HoursRoundTrip(dt: DateTime, k: int)
    requires Valid(dt.time) && 0 <= k <= 24
    ensures PlusHours(MinusHours(dt, k), k) == dt
    ensures MinusHours(PlusHours(dt, k), k) == dt
  {
    InstantDetermines(PlusHours(MinusHours(dt, k), k), dt);
    InstantDetermines(MinusHours(PlusHours(dt, k), k), dt);
  }
}
