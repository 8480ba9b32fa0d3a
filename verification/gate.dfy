/** One tick of `trivia_loop`, the once-a-minute task that posts the trivia
    of the day. The clock, the configuration and the outcome of the HTTP
    request are parameters; the tick returns the cog's new `sent_today` /
    `sent_date` pair and the effects it performs, in order. */
module Gate {
  import opened Wrappers
  import opened Clock
  import opened TriviaConfig
  import Schedule

  /** The only status code the tick treats as success. */
  const HttpOk: int := 200

  /** The cog's `sent_today` and `sent_date` attributes. */
  datatype GateState = GateState(sentToday: bool, sentDate: Option<Date>)

  /** The values set in the cog's constructor. */
  const Fresh: GateState := GateState(false, None)

  /** The trivia has been posted on date `d`. */
  predicate SentOn(g: GateState, d: Date)
  {
    g.sentToday && g.sentDate == Some(d)
  }

  /** The part of the API's answer the tick reads: the status code and, for
      a 200, the `fact` field of the first element of the JSON array. */
  datatype Response = Response(statusCode: int, fact: string)

  /** The tick's effects: the request to the facts API, the error message
      with the status code, and the trivia embed carrying the fact. */
  datatype Action = Fetch | SendError(code: int) | SendFact(fact: string)

  /** The tick's outcome. `raised` is set when the tick ends in an exception
      (strptime's ValueError on a stored schedule it cannot read); the state
      is then whatever the tick had assigned before raising. */
  datatype TickResult = TickResult(state: GateState, actions: seq<Action>, raised: bool)

  /** It is the trivia's time on `today`: a configuration exists, its schedule
      can be read and `utcNow` is at or after the fire time. */
  predicate Due(config: Option<Config>, today: Date, utcNow: TimeOfDay)
  {
    && config.Some?
    && Schedule.GetSchedule(config, today).Some?
    && AtOrAfter(utcNow, Schedule.GetSchedule(config, today).value)
  }

  /** One run of the loop body on date `today` (local clock) at UTC time of
      day `utcNow`; `response` is what the facts API would answer. */
  function Tick(g: GateState, config: Option<Config>, today: Date, utcNow: TimeOfDay,
                response: Response): (r: TickResult)
    // no configuration: nothing happens and nothing changes
    ensures config.None? ==> r == TickResult(g, [], false)
    // the tick raises exactly when the stored schedule cannot be read, and
    // then performs nothing
    ensures r.raised <==> config.Some? && Schedule.GetSchedule(config, today).None?
    ensures r.raised ==> r.actions == []
    // the effects come in one of three shapes
    ensures || r.actions == []
            || (r.actions == [Fetch, SendError(response.statusCode)]
                && response.statusCode != HttpOk)
            || (r.actions == [Fetch, SendFact(response.fact)] && response.statusCode == HttpOk)
    // the API is asked exactly when it is time and the trivia has not been
    // posted on this date, and the fact is posted exactly when it answers 200
    ensures Fetch in r.actions <==> Due(config, today, utcNow) && !SentOn(g, today)
    ensures SendFact(response.fact) in r.actions
        <==> Due(config, today, utcNow) && !SentOn(g, today) && response.statusCode == HttpOk
    // once posted on a date, the tick says so; nothing else sets the flag
    ensures SentOn(r.state, today) <==> SentOn(g, today) || SendFact(response.fact) in r.actions
    // with a configuration, `sent_today` never outlives its date
    ensures config.Some? ==> (r.state.sentToday ==> r.state.sentDate == Some(today))
    // `sent_date` moves only to today and only by posting the fact
    ensures r.state.sentDate != g.sentDate ==>
              r.state.sentDate == Some(today) && SendFact(response.fact) in r.actions
    // a failed request leaves the flag down and the date where it was
    ensures SendError(response.statusCode) in r.actions ==>
              !r.state.sentToday && r.state.sentDate == g.sentDate
  {
    if config.None? then TickResult(g, [], false)
    else
      // a new date clears the flag before the time is even looked at
      var g1 := if Some(today) != g.sentDate then g.(sentToday := false) else g;
      match Schedule.GetSchedule(config, today)
      case None => TickResult(g1, [], true)
      case Some(fire) =>
        if !AtOrAfter(utcNow, fire) then TickResult(g1, [], false)
        else if g1.sentToday then TickResult(g1, [], false)
        else if response.statusCode != HttpOk then
          TickResult(g1, [Fetch, SendError(response.statusCode)], false)
        else
          TickResult(GateState(true, Some(today)), [Fetch, SendFact(response.fact)], false)
  }
}
