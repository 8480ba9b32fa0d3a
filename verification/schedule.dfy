/** `_get_schedule`: the stored local schedule, read as a time in the fixed
    UTC+8 zone of the deployment, converted to the UTC time of day at which
    the daily trivia fires. */
module Schedule {
  import opened Wrappers
  import opened Clock
  import opened TimeText
  import opened TriviaConfig

  /** The deployment's offset from UTC, in hours. */
  const UtcOffsetHours: int := 8

  /** The UTC time of day a local time of day corresponds to: the local time
      is combined with `today`, `UtcOffsetHours` hours are subtracted, and the
      date is dropped again. */
  function LocalToUtc(local: HourMinute, today: Date): (t: TimeOfDay)
    requires ValidHM(local)
    ensures Valid(t) && t.second == 0 && t.microsecond == 0
    ensures MinuteOfDay(t)
         == (60 * local.hour + local.minute - 60 * UtcOffsetHours) % MinutesPerDay
  {
    MinusHours(DateTime(today, TimeOfDay(local.hour, local.minute, 0, 0)), UtcOffsetHours).time
  }

  /** The fire time: midnight when there is no configuration, None where
      strptime raises ValueError on the stored schedule, and otherwise the
      stored local time converted to UTC. */
  function GetSchedule(config: Option<Config>, today: Date): (r: Option<TimeOfDay>)
    ensures config.None? ==> r == Some(Midnight)
    ensures config.Some? ==> (r.None? <==> ParseTime(config.value.schedule).None?)
    ensures r.Some? ==> Valid(r.value) && r.value.second == 0 && r.value.microsecond == 0
    ensures config.Some? && r.Some? ==>
              var local := ParseTime(config.value.schedule).value;
              MinuteOfDay(r.value)
              == (60 * local.hour + local.minute - 60 * UtcOffsetHours) % MinutesPerDay
  {
    match config
    case None => Some(Midnight)
    case Some(c) =>
      match ParseTime(c.schedule)
      case None => None
      case Some(local) => Some(LocalToUtc(local, today))
  }

  /** Adding the offset back to the fire time, on any date, gives the
      stored local hour and minute. */
  lemma ScheduleRoundTrip(config: Config, today: Date, day: Date)
    requires ParseTime(config.schedule).Some?
    ensures var fire := GetSchedule(Some(config), today).value;
            var local := ParseTime(config.schedule).value;
            PlusHours(DateTime(day, fire), UtcOffsetHours).time
            == TimeOfDay(local.hour, local.minute, 0, 0)
  {
    var local := ParseTime(config.schedule).value;
    var dt := DateTime(today, TimeOfDay(local.hour, local.minute, 0, 0));
    HoursRoundTrip(dt, UtcOffsetHours);
    var back := MinusHours(dt, UtcOffsetHours);
    assert PlusHours(DateTime(day, back.time), UtcOffsetHours).time
        == PlusHours(back, UtcOffsetHours).time;
  }

  /** The fire time does not depend on the date it is computed on. */
  lemma ScheduleIgnoresDate(config: Option<Config>, d1: Date, d2: Date)
    ensures GetSchedule(config, d1) == GetSchedule(config, d2)
  {
    if config.Some? && ParseTime(config.value.schedule).Some? {
      var a := GetSchedule(config, d1).value;
      var b := GetSchedule(config, d2).value;
      assert a.hour == MinuteOfDay(a) / 60 && b.hour == MinuteOfDay(b) / 60;
    }
  }

  /** "09:00" fires at 01:00 UTC and "05:00" at 21:00 UTC, the previous
      UTC day's time. */
  lemma ScheduleExamples(channelId: int, today: Date)
    ensures GetSchedule(Some(Config(channelId, "09:00")), today) == Some(TimeOfDay(1, 0, 0, 0))
    ensures GetSchedule(Some(Config(channelId, "05:00")), today) == Some(TimeOfDay(21, 0, 0, 0))
  {
    ParseTimeByShape("09:00");
    ParseTimeByShape("05:00");
  }

  /** A schedule the validator would refuse but strptime reads is used as
      it reads: "9:5" fires at 01:05 UTC. */
  lemma LaxScheduleFires(channelId: int, today: Date)
    ensures !CheckTime("9:5")
    ensures GetSchedule(Some(Config(channelId, "9:5")), today) == Some(TimeOfDay(1, 5, 0, 0))
  {
    ParseTimeByShape("9:5");
  }
}
