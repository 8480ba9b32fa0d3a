# Daily trivia scheduler of the progphil bot, in Dafny

This project models the `Trivia` cog of the bot (`bot/cogs/trivia.py`). Once a
day, at a time an administrator configures in UTC+8, the cog fetches a fact from
a facts API and posts it to a configured channel. Administrators configure the
feature with three commands: `setup`, `schedule` and `channel`.

The model is functional. Every clock read, every HTTP answer and every command
is an input.

- `TimeText` (timetext.dfy) holds the two readings of a schedule string.
  - `CheckTime` is the validator `_check_time`, the regular expression
    `^([01]?[0-9]|2[0-3]):[0-5][0-9]$`. Python's `$` also matches before one
    final newline.
  - `ParseTime` is `datetime.strptime(s, "%H:%M")`. It follows Python's own
    regex for this format: `2[0-3]|[0-1]\d|\d`, a colon, then `[0-5]\d|\d`.
    Alternatives are tried in order and the first match is kept. A match that
    stops before the end of the string is a ValueError, modelled as `None`.
- `Clock` (clock.dfy) holds naive times of day, dates and date-times. It has
  Python's field-by-field `time` comparison, and it adds or subtracts whole
  hours with the carry or borrow into the date.
- `TriviaConfig` (config.dfy) holds the configuration `Option<Config>` and the
  three commands.
- `Schedule` (schedule.dfy) is `_get_schedule`. It combines the parsed local
  time with today's date, subtracts `UtcOffsetHours` (8) hours and keeps the
  time of day.
- `Gate` (gate.dfy) is one run of the `trivia_loop` body. It maps
  `(sent_today, sent_date)`, the configuration, today's date, the UTC time of
  day and the API's response to a new state and a list of effects:
  `[]`, `[Fetch, SendError(code)]` or `[Fetch, SendFact(fact)]`.
- `Cog` (cog.dfy) runs sequences of ticks and commands. Each posted effect is
  stamped with the date of the tick that produced it. The lemmas here are about
  whole runs: at most one post per date, retry after a failed fetch, and
  silence without a configuration.

Three behaviours of the code that its comments and reply texts do not suggest.
The model follows the code in each case:

- **Schedules are never validated.** `schedule` and `setup` test
  `self._check_time(schedule) is None`, but `_check_time` returns a bool. The
  rejection branch can never run, so any string is stored. The commands in
  `TriviaConfig` therefore have no rejection path (see
  `TriviaConfig.UnvalidatedScheduleStored`).
- **An unreadable schedule ends the loop.** For a stored schedule that
  strptime cannot read, `_get_schedule` raises ValueError inside the loop body.
  By then the tick has already reset `sent_today` for a new date. An exception
  other than a connection error ends a `discord.ext.tasks` loop, and nothing in
  the cog restarts it. `Gate.Tick` reports this with `raised`. `Cog.Step` then
  stops the loop for good (`Cog.MalformedScheduleStopsLoop`). The
  `discord.ext.tasks` library is not part of this model; its behaviour here is
  an assumption.
- **The date comes from the local clock.** The date compared with `sent_date`
  is `datetime.today()`, which is local time. The time of day compared with the
  fire time is `utcnow()`. The model takes the date and the UTC time of day as
  two independent inputs.

Two smaller disagreements between the two readings of a schedule:
- The validator accepts a trailing newline (`"12:34\n"`), which strptime then
  rejects.
- strptime accepts a one-digit minute (`"9:5"` reads as 09:05), which the
  validator rejects.

## Model

| member | source | states |
|---|---|---|
| TimeText.CheckTime | bot/cogs/trivia.py:34-42 | `_check_time`: an hour token (`[01]?[0-9]` or `2[0-3]`), a colon and a two-digit minute `[0-5][0-9]`. As with Python's `$`, one final newline is also accepted. Every accepted string has 4 to 6 characters. `CheckTimeSound` and `CheckTimeComplete` characterise the accepted strings exactly |
| TimeText.HourAlternative | bot/cogs/trivia.py:54-56 | an alternative of `%H` that matches at the start of a string consumes one or two characters that form an hour token, and denotes the value they spell, which is below 24 |
| TimeText.MinuteAlternative | bot/cogs/trivia.py:54-56 | `%M` matches at an index exactly when a digit stands there. The match consumes one or two digits and denotes their value, which is below 60. It reaches the end of the string exactly when the rest of the string is a one- or two-digit minute token |
| TimeText.FirstMatch | bot/cogs/trivia.py:54-56 | the first match of `%H:%M` with backtracking has hour ≤ 23 and minute ≤ 59, and it ends within the string after at least three characters |
| TimeText.ParseTime | bot/cogs/trivia.py:54-56 | every time strptime reads has hour in [0,23] and minute in [0,59] |
| TimeText.ParseTimeByShape | bot/cogs/trivia.py:54-56 | strptime reads a string iff it is an hour token, a colon and a one- or two-digit minute token, and then it yields the values those tokens spell |
| TimeText.CheckTimeSound | bot/cogs/trivia.py:34-42 | every string `_check_time` accepts, after dropping one final newline, is the padded "HH:MM" or one-digit "H:MM" rendering of a valid time, and strptime reads that time back |
| TimeText.CheckTimeComplete | bot/cogs/trivia.py:34-42 | `_check_time` accepts every padded rendering of a valid time and every one-digit-hour rendering of an hour before ten, with or without a final newline; strptime reads the time back from each |
| TimeText.CheckTimeExamples | bot/cogs/trivia.py:37-42 | "1:24", "16:23", "00:00" and "23:59" are accepted; "24:00", "9:5", "abc" and "12:60" are refused |
| TimeText.ValidatorAndParserDisagree | bot/cogs/trivia.py:41-56 | "9:5" is refused by the validator but read as 09:05 by strptime; "12:34\n" is accepted by the validator but refused by strptime |
| Clock.AtOrAfter | bot/cogs/trivia.py:80 | Python's `time >=`: fields compared in order hour, minute, second, microsecond. It holds when the two times are equal, so the tick at the fire time itself fires. `AtOrAfterIsLater` relates it to the instant within the day |
| Clock.AtOrAfterIsLater | bot/cogs/trivia.py:80 | Python's field-by-field `time >=` on valid times is the order of their instants within the day |
| Clock.MinusHours | bot/cogs/trivia.py:58-64 | subtracting `timedelta(hours=k)` moves the instant back by k hours, keeps minutes, seconds and microseconds, and leaves minute-of-day `(m − 60k) mod 1440` |
| Clock.PlusHours | bot/cogs/trivia.py:58-64 | adding `timedelta(hours=k)` moves the instant forward by k hours and leaves minute-of-day `(m + 60k) mod 1440` |
| Clock.HoursRoundTrip | bot/cogs/trivia.py:58-64 | subtracting and then adding the same number of hours is the identity on date-times, and so is the reverse |
| Schedule.LocalToUtc | bot/cogs/trivia.py:58-64 | the local time combined with a date, minus the 8-hour offset, is a valid time with second 0 whose minute-of-day is `(60h + m − 480) mod 1440` |
| Schedule.GetSchedule | bot/cogs/trivia.py:44-64 | no configuration gives 00:00; the result is absent exactly when strptime rejects the stored schedule; otherwise it is a valid time with second 0 at minute-of-day `(60h + m − 480) mod 1440` |
| Schedule.ScheduleRoundTrip | bot/cogs/trivia.py:54-64 | adding the 8 hours back to the fire time, on any date, recovers the stored local hour and minute |
| Schedule.ScheduleIgnoresDate | bot/cogs/trivia.py:58-64 | the fire time does not depend on the date `_get_schedule` combines the schedule with |
| Schedule.ScheduleExamples | bot/cogs/trivia.py:54-64 | "09:00" fires at 01:00 UTC and "05:00" at 21:00 UTC |
| Schedule.LaxScheduleFires | bot/cogs/trivia.py:54-64 | the unvalidated schedule "9:5" is read as 09:05 and fires at 01:05 UTC |
| TriviaConfig.SetSchedule | bot/cogs/trivia.py:135-158 | without a configuration, nothing changes and the reply asks for setup; otherwise the schedule is replaced by any string, the channel is kept, and the reply echoes the schedule |
| TriviaConfig.SetChannel | bot/cogs/trivia.py:204-220 | without a configuration, nothing changes and the reply asks for setup; otherwise the channel is replaced and the schedule is kept |
| TriviaConfig.Setup | bot/cogs/trivia.py:234-257 | an existing configuration is left as it is, with the "already setup" reply; otherwise the given channel and schedule are stored |
| TriviaConfig.SetupOnce | bot/cogs/trivia.py:234-238 | a second setup, whatever its arguments, keeps the first setup's configuration |
| TriviaConfig.UpdatesCommute | bot/cogs/trivia.py:148-215 | updating the schedule and updating the channel touch different fields, so their order does not matter |
| TriviaConfig.UnvalidatedScheduleStored | bot/cogs/trivia.py:240-250 | strings the validator refuses ("abc", "24:00") are stored by `setup` and `schedule` |
| Gate.Tick | bot/cogs/trivia.py:66-118 | without a configuration, no effect and no change. The tick raises exactly when the schedule is unreadable. The API is called exactly when it is time and the trivia was not yet posted today. The fact is posted exactly when the API also answers 200, and a non-200 answer posts one error with its code. Posting sets `sent_today` and `sent_date = today`, and nothing else sets them. A new date clears `sent_today` before the time check |
| Cog.Start | bot/cogs/trivia.py:21-31 | the cog after `__init__` and `cog_load`: the loaded configuration, the loop running, and the trivia counted as posted on no date |
| Cog.Run | bot/cogs/trivia.py:66-118 | the events in order, each applied to the cog the previous one left, with the logs concatenated. Each event adds at most two entries to the log: a request and one message |
| Cog.Step | bot/cogs/trivia.py:72-118 | a command changes only the configuration and posts nothing; a tick changes only the gate and the loop's liveness; a stopped loop ignores ticks |
| Cog.RunningTick | bot/cogs/trivia.py:66-118 | one tick of a running loop with a readable schedule keeps the loop running and the configuration as it is. It posts one embed exactly when it is time, the trivia is unposted on its date and the API answers 200, and one error when only the answer fails. Afterwards the trivia counts as posted on the tick's date exactly when it did before or the tick posted it |
| Cog.TickLogCounts | bot/cogs/trivia.py:99-118 | a tick's effects add one error for a failed fetch and one embed, dated by the tick, for a successful one |
| Cog.DatedFacts | bot/cogs/trivia.py:76-118 | one event posts at most one embed on a date, only as a tick on that date that finds the trivia unposted, after which it counts as posted; a tick on the same date keeps it posted |
| Cog.StoppedIsSilent | bot/cogs/trivia.py:54-80 | once the loop has ended, no event posts anything or changes the gate |
| Cog.UnconfiguredIsSilent | bot/cogs/trivia.py:72-74 | without a configuration, any number of ticks call no API, post nothing and change nothing |
| Cog.NoFactsWithoutTicks | bot/cogs/trivia.py:115-118 | no tick on a date means no embed on that date |
| Cog.AtMostOncePerDate | bot/cogs/trivia.py:76-118 | with dates that never go backwards, at most one embed is posted per date, and none on a date already posted on |
| Cog.AtMostOncePerDateFromStart | bot/cogs/trivia.py:21-118 | from the cog's start, with dates that never go backwards, at most one embed is posted on any date |
| Cog.ExactlyOnceWhenApiUp | bot/cogs/trivia.py:80-118 | on a date not yet posted on, with a running loop and a readable schedule: if the API always answers 200 and one of the day's ticks comes at or after the fire time, those ticks post exactly one embed and the date ends up posted |
| Cog.SentStaysSent | bot/cogs/trivia.py:76-86 | ticks on the date the trivia was posted keep it marked as posted |
| Cog.SilentOncePosted | bot/cogs/trivia.py:76-86 | once the trivia is posted on a date, any number of later ticks on that date call no API and post nothing, neither embed nor error, whatever the API would answer |
| Cog.RetryWhileFailing | bot/cogs/trivia.py:99-109 | on a date not yet posted on, with a running loop and a readable schedule: N ticks after the fire time whose requests fail post N error messages and no embed. They leave the trivia unposted, the loop running and the configuration unchanged |
| Cog.RetryUntilSuccess | bot/cogs/trivia.py:99-118 | on a date not yet posted on, with a running loop and a readable schedule: a day of ticks after the fire time in which only the last request succeeds posts one error per failure and exactly one embed, marks the date as posted, and the embed carrying the last answer's fact is the final log entry |
| Cog.MalformedScheduleStopsLoop | bot/cogs/trivia.py:54-80 | after setup with a schedule strptime cannot read, the next tick ends the loop, and nothing is ever posted |
| Cog.FiresOnTime | bot/cogs/trivia.py:80-118 | from the cog's start, for a configuration whose schedule strptime reads: a tick before its fire time does nothing, and a tick at the fire time with a 200 answer fetches and posts the returned fact |
| Cog.BeesCanFly | bot/cogs/trivia.py:80-118 | with schedule "09:00", a tick at 00:59 UTC does nothing and a tick at 01:00 UTC fetches and posts the returned fact |
| Cog.RepostsOnReturn | bot/cogs/trivia.py:76-118 | from the cog's start, with a readable schedule: after the fire time, ticks on date d, then on another date, then on d again, each with a 200 answer, post two embeds on d |
| Cog.BackwardsClockPostsTwice | bot/cogs/trivia.py:76-78 | if the date goes back to an earlier one, that date gets a second embed: the gate remembers only the last date it posted on |

## Left out

- Discord plumbing is left out because it is user interface and library code. This covers the cog base class, command registration, the `is_staff` check, embed title, colour and image, `dedent`, and channel mentions. The `config` command (bot/cogs/trivia.py:160-191) is only rendering, and the reply texts are modelled as `Reply` tags.
- The HTTP request and JSON decoding are left out because they are network I/O. Only the status code and the first element's `fact` are inputs (`Response`). A malformed JSON body and transport exceptions are not modelled.
- A channel id that `get_channel` cannot resolve is left out, because the source has no handling for it (bot/cogs/trivia.py:88-90).
- The `TriviaDB` calls and `cog_load` are left out because they are database I/O. The configuration is an in-memory `Option`, and `Cog.Start` takes the loaded value. A process restart, which resets `sent_today` and `sent_date`, is not an event of the model.
- The one-minute timer and `before_loop` are left out because they are scheduling. A run is an explicit sequence of events.
- The model reads the date once per tick, because clock reads are inputs. The source reads it at three points (:59, :76, :118), so a tick that crosses midnight is not modelled.
- Commands are modelled as atomic steps, because interleaving inside a command is not modelled. In the source each command awaits between reading `self.config` and assigning it (:149-153, :212-215, :234-252), and discord.py runs each interaction as its own task. Two concurrent `setup` commands can both pass the check at :234 and both insert a row. A `channel` command that overlaps a `schedule` command can write back the schedule it read at :212, losing the update that was already confirmed. `TriviaConfig.SetupOnce` and `TriviaConfig.UpdatesCommute` are therefore about commands that run one after another. Ticks are unaffected: no await lies between :72 and :100, and after the await at :115 the tick reads only the date.
- A `send` at :100 or :115 that raises, such as `discord.Forbidden` or another `discord.HTTPException`, is not modelled: every send is assumed delivered. In the source that exception ends the loop, and at :115 it does so before `sent_today` is set. `Cog.ExactlyOnceWhenApiUp`, `Cog.RetryWhileFailing` and `Cog.RetryUntilSuccess` are therefore about a channel that accepts every message.
- TimeText.ParseTime: digits are ASCII only. Python's `\d` in strptime also matches other Unicode decimal digits.
- Clock.MinusHours: does not model the OverflowError raised before year 1, because dates are unbounded ordinals.
