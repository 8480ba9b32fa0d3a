/** The trivia configuration and the three administrator commands that
    change it: `setup`, `schedule` and `channel`. The database behind the
    commands is an in-memory `Option<Config>`: a command's write followed by
    `get_config()` yields exactly what was written. */
module TriviaConfig {
  import opened Wrappers
  import TimeText

  /** The stored configuration row: a channel id and a schedule string. */
  datatype Config = Config(channelId: int, schedule: string)

  /** The ephemeral reply each command sends to the administrator. */
  datatype Reply =
    | SetupFirst            // "Please setup the trivia first, ..."
    | AlreadySetUp          // "Trivia is already setup, ..."
    | Scheduled(at: string) // "Trivia session scheduled at {schedule}"
    | ChannelSet            // "Trivia channel set"
    | SetupDone             // "Trivia setup"

  datatype Outcome = Outcome(config: Option<Config>, reply: Reply)

  /* Both `schedule` and `setup` test `_check_time(schedule) is None`. The
     validator returns a bool, never None, so the "Please enter a correct
     time" branch is unreachable and any string is stored. The commands below
     have no such branch. */

  /** `/trivia schedule`: replaces the schedule of an existing configuration
      and keeps its channel. */
  function SetSchedule(config: Option<Config>, schedule: string): (r: Outcome)
    ensures config.None? ==> r == Outcome(None, SetupFirst)
    ensures config.Some? ==> && r.config.Some?
                             && r.config.value.channelId == config.value.channelId
                             && r.config.value.schedule == schedule
                             && r.reply == Scheduled(schedule)
  {
    match config
    case None => Outcome(None, SetupFirst)
    case Some(c) => Outcome(Some(c.(schedule := schedule)), Scheduled(schedule))
  }

  /** `/trivia channel`: replaces the channel of an existing configuration
      and keeps its schedule. */
  function SetChannel(config: Option<Config>, channelId: int): (r: Outcome)
    ensures config.None? ==> r == Outcome(None, SetupFirst)
    ensures config.Some? ==> && r.config.Some?
                             && r.config.value.channelId == channelId
                             && r.config.value.schedule == config.value.schedule
                             && r.reply == ChannelSet
  {
    match config
    case None => Outcome(None, SetupFirst)
    case Some(c) => Outcome(Some(c.(channelId := channelId)), ChannelSet)
  }

  /** `/trivia setup`: creates the configuration once; afterwards it changes
      nothing. */
  function Setup(config: Option<Config>, channelId: int, schedule: string): (r: Outcome)
    ensures config.Some? ==> r == Outcome(config, AlreadySetUp)
    ensures config.None? ==> r == Outcome(Some(Config(channelId, schedule)), SetupDone)
  {
    if config.Some? then Outcome(config, AlreadySetUp)
    else Outcome(Some(Config(channelId, schedule)), SetupDone)
  }

  /** Setup happens once: a second setup, whatever its arguments, leaves the
      first one's configuration in place. */
  lemma SetupOnce(a: int, s: string, b: int, t: string)
    ensures var first := Setup(None, a, s).config;
            Setup(first, b, t) == Outcome(first, AlreadySetUp)
  {
  }

  /** Updating the schedule and updating the channel touch different fields,
      so their order does not matter. */
  lemma UpdatesCommute(config: Option<Config>, schedule: string, channelId: int)
    ensures SetChannel(SetSchedule(config, schedule).config, channelId).config
         == SetSchedule(SetChannel(config, channelId).config, schedule).config
  {
  }

  /** The validation guard never rejects: a schedule the validator refuses
      is stored by both `setup` and `schedule`. */
  lemma UnvalidatedScheduleStored(c: Config, channelId: int)
    ensures !TimeText.CheckTime("abc") && !TimeText.CheckTime("24:00")
    ensures Setup(None, channelId, "abc").config == Some(Config(channelId, "abc"))
    ensures SetSchedule(Some(c), "24:00").config == Some(Config(c.channelId, "24:00"))
  {
  }
}
