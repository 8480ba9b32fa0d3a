/** The trivia cog over time: the loop's ticks interleaved with the
    administrator's commands. A run over a sequence of events yields the
    final cog and the log of everything posted to the trivia channel, each
    entry stamped with the date of the tick that posted it. */
module Cog {
  import opened Wrappers
  import opened Clock
  import opened TimeText
  import opened TriviaConfig
  import opened Gate
  import Schedule

  datatype Event =
    | TickAt(today: Date, utcNow: TimeOfDay, response: Response)
    | SetupCmd(channelId: int, schedule: string)
    | ScheduleCmd(schedule: string)
    | ChannelCmd(channelId: int)

  /** The configuration, the loop's memory and whether the loop still runs:
      an exception escaping a tick ends `tasks.loop`, and nothing in the cog
      starts it again. */
  datatype CogState = CogState(config: Option<Config>, gate: GateState, looping: bool)

  /** The cog after `cog_load`: the stored configuration, a fresh gate and a
      running loop. */
  function Start(config: Option<Config>): (c: CogState)
    ensures c.config == config && c.looping
    ensures forall d :: !SentOn(c.gate, d)
  {
    CogState(config, Fresh, true)
  }

  /** An effect of a tick, with the tick's date. */
  datatype Posted = Posted(date: Date, action: Action)

  datatype Trace = Trace(cog: CogState, log: seq<Posted>)

  function Dated(d: Date, actions: seq<Action>): (r: seq<Posted>)
    ensures |r| == |actions|
    ensures forall i :: 0 <= i < |r| ==> r[i] == Posted(d, actions[i])
  {
    if actions == [] then [] else [Posted(d, actions[0])] + Dated(d, actions[1..])
  }

  /** One event. A command changes only the configuration; a tick of a
      running loop changes only the gate and whether the loop runs on. */
  function Step(c: CogState, e: Event): (r: Trace)
    ensures !e.TickAt? ==> r.log == [] && r.cog.gate == c.gate && r.cog.looping == c.looping
    ensures e.TickAt? ==> r.cog.config == c.config
    ensures e.TickAt? && !c.looping ==> r == Trace(c, [])
    ensures |r.log| <= 2
  {
    match e
    case TickAt(today, utcNow, response) =>
      if !c.looping then Trace(c, [])
      else
        var t := Tick(c.gate, c.config, today, utcNow, response);
        Trace(CogState(c.config, t.state, !t.raised), Dated(today, t.actions))
    case SetupCmd(channelId, schedule) =>
      Trace(c.(config := Setup(c.config, channelId, schedule).config), [])
    case ScheduleCmd(schedule) =>
      Trace(c.(config := SetSchedule(c.config, schedule).config), [])
    case ChannelCmd(channelId) =>
      Trace(c.(config := SetChannel(c.config, channelId).config), [])
  }

  function Run(c: CogState, events: seq<Event>): (r: Trace)
    // each event adds at most a request and one message to the log
    ensures |r.log| <= 2 * |events|
    decreases |events|
  {
    if events == [] then Trace(c, [])
    else
      var first := Step(c, events[0]);
      var rest := Run(first.cog, events[1..]);
      Trace(rest.cog, first.log + rest.log)
  }

  // ---------------------------------------------------------------------
  // Counting the log.

  /** How many trivia embeds were posted by ticks dated `d`. */
  function FactsOn(log: seq<Posted>, d: Date): nat
  {
    if log == [] then 0
    else (if log[0].date == d && log[0].action.SendFact? then 1 else 0) + FactsOn(log[1..], d)
  }

  /** How many trivia embeds were posted in all. */
  function Facts(log: seq<Posted>): nat
  {
    if log == [] then 0
    else (if log[0].action.SendFact? then 1 else 0) + Facts(log[1..])
  }

  /** How many error messages were posted in all. */
  function Errors(log: seq<Posted>): nat
  {
    if log == [] then 0
    else (if log[0].action.SendError? then 1 else 0) + Errors(log[1..])
  }

  lemma {:induction false} CountsAppend(a: seq<Posted>, b: seq<Posted>, d: Date)
    ensures FactsOn(a + b, d) == FactsOn(a, d) + FactsOn(b, d)
    ensures Facts(a + b) == Facts(a) + Facts(b)
    ensures Errors(a + b) == Errors(a) + Errors(b)
    decreases |a|
  {
    if a != [] {
      assert (a + b)[0] == a[0];
      assert (a + b)[1..] == a[1..] + b;
      CountsAppend(a[1..], b, d);
    } else {
      assert a + b == b;
    }
  }

  // ---------------------------------------------------------------------
  // Conditions on the dates of the ticks in a sequence of events.

  /** The ticks' dates never go backwards. */
  predicate DatesNonDecreasing(events: seq<Event>)
  {
    forall i, j :: 0 <= i < j < |events| && events[i].TickAt? && events[j].TickAt? ==>
      events[i].today.ordinal <= events[j].today.ordinal
  }

  /** No tick is dated before `d`. */
  predicate NoTickBefore(events: seq<Event>, d: Date)
  {
    forall i :: 0 <= i < |events| && events[i].TickAt? ==> d.ordinal <= events[i].today.ordinal
  }

  /** No tick is dated `d`. */
  predicate NoTickOn(events: seq<Event>, d: Date)
  {
    forall i :: 0 <= i < |events| && events[i].TickAt? ==> events[i].today != d
  }

  /** Every tick is dated `d`. */
  predicate AllTicksOn(events: seq<Event>, d: Date)
  {
    forall i :: 0 <= i < |events| && events[i].TickAt? ==> events[i].today == d
  }

  // ---------------------------------------------------------------------
  // Properties of runs.

  /** Once the loop has ended, no event posts anything or touches the gate. */
  lemma {:induction false} StoppedIsSilent(c: CogState, events: seq<Event>)
    requires !c.looping
    ensures Run(c, events).log == []
    ensures Run(c, events).cog.gate == c.gate && !Run(c, events).cog.looping
    decreases |events|
  {
    if events != [] {
      StoppedIsSilent(Step(c, events[0]).cog, events[1..]);
    }
  }

  /** Without a configuration, ticks never call the API, post nothing and
      leave the cog as it was. */
  lemma {:induction false} UnconfiguredIsSilent(c: CogState, events: seq<Event>)
    requires c.config.None?
    requires forall i :: 0 <= i < |events| ==> events[i].TickAt?
    ensures Run(c, events) == Trace(c, [])
    decreases |events|
  {
    if events != [] {
      UnconfiguredIsSilent(Step(c, events[0]).cog, events[1..]);
    }
  }

  /** Embeds are dated by the tick that posts them: no tick on `d`, no embed
      on `d`. */
  lemma {:induction false} NoFactsWithoutTicks(c: CogState, events: seq<Event>, d: Date)
    requires NoTickOn(events, d)
    ensures FactsOn(Run(c, events).log, d) == 0
    decreases |events|
  {
    if events != [] {
      var first := Step(c, events[0]);
      NoFactsWithoutTicks(first.cog, events[1..], d);
      CountsAppend(first.log, Run(first.cog, events[1..]).log, d);
      DatedFacts(events[0], c, d);
    }
  }

  /** What the effects of one tick add to each count. */
  lemma TickLogCounts(d: Date, actions: seq<Action>, x: Date)
    requires actions == [] || (|actions| == 2 && actions[0] == Fetch && !actions[1].Fetch?)
    ensures var log := Dated(d, actions);
            var posted := actions != [] && actions[1].SendFact?;
            && Errors(log) == (if actions != [] && actions[1].SendError? then 1 else 0)
            && Facts(log) == (if posted then 1 else 0)
            && FactsOn(log, x) == (if posted && d == x then 1 else 0)
  {
    var log := Dated(d, actions);
    if actions != [] {
      var tail := log[1..];
      assert log[0].action == Fetch;
      assert tail == [Posted(d, actions[1])] && tail[1..] == [];
      assert Errors(tail) == Errors(tail[1..]) + (if actions[1].SendError? then 1 else 0);
      assert Facts(tail) == Facts(tail[1..]) + (if actions[1].SendFact? then 1 else 0);
      assert FactsOn(tail, x)
          == FactsOn(tail[1..], x) + (if actions[1].SendFact? && d == x then 1 else 0);
    }
  }

  /** A single event posts at most one embed, and one on `d` only when it is
      a tick on `d` that finds the trivia not yet posted on `d`; after it
      the trivia counts as posted on `d`. */
  lemma DatedFacts(e: Event, c: CogState, d: Date)
    ensures var r := Step(c, e);
            && FactsOn(r.log, d) <= 1
            && (FactsOn(r.log, d) == 1 ==>
                  e.TickAt? && e.today == d && !SentOn(c.gate, d) && SentOn(r.cog.gate, d))
            && (e.TickAt? && e.today == d && SentOn(c.gate, d) ==> SentOn(r.cog.gate, d))
            && (e.TickAt? && e.today != d ==> FactsOn(r.log, d) == 0)
  {
    var r := Step(c, e);
    if e.TickAt? && c.looping {
      var t := Tick(c.gate, c.config, e.today, e.utcNow, e.response);
      TickLogCounts(e.today, t.actions, d);
    }
  }

  /** At most one embed per date, as long as the dates the ticks see never
      go backwards and none precedes the last date the gate posted on; none
      at all on a date the gate has already posted on. */
  lemma {:induction false} AtMostOncePerDate(c: CogState, events: seq<Event>, d: Date)
    requires DatesNonDecreasing(events)
    requires c.gate.sentDate.Some? ==> NoTickBefore(events, c.gate.sentDate.value)
    ensures FactsOn(Run(c, events).log, d) <= if SentOn(c.gate, d) then 0 else 1
    decreases |events|
  {
    if events != [] {
      var e := events[0];
      var rest := events[1..];
      var first := Step(c, e);
      CountsAppend(first.log, Run(first.cog, rest).log, d);
      DatedFacts(e, c, d);
      assert DatesNonDecreasing(rest) by {
        forall i, j | 0 <= i < j < |rest| && rest[i].TickAt? && rest[j].TickAt?
          ensures rest[i].today.ordinal <= rest[j].today.ordinal
        {
          assert rest[i] == events[i + 1] && rest[j] == events[j + 1];
        }
      }
      if e.TickAt? {
        assert NoTickBefore(rest, e.today) by {
          forall i | 0 <= i < |rest| && rest[i].TickAt?
            ensures e.today.ordinal <= rest[i].today.ordinal
          {
            assert rest[i] == events[i + 1];
          }
        }
        if c.gate.sentDate.Some? {
          assert c.gate.sentDate.value.ordinal <= e.today.ordinal by {
            assert events[0].TickAt?;
          }
        }
      }
      assert first.cog.gate.sentDate.Some? ==>
               NoTickBefore(rest, first.cog.gate.sentDate.value) by {
        if first.cog.gate.sentDate.Some? {
          if first.cog.gate.sentDate != c.gate.sentDate {
            assert e.TickAt? && first.cog.gate.sentDate == Some(e.today);
          } else {
            assert forall i :: 0 <= i < |rest| ==> rest[i] == events[i + 1];
          }
        }
      }
      AtMostOncePerDate(first.cog, rest, d);
      if SentOn(c.gate, d) && FactsOn(first.log, d) == 0 && !SentOn(first.cog.gate, d) {
        // the first tick is on a later date, and so are all that follow
        assert e.TickAt? && e.today.ordinal > d.ordinal;
        assert NoTickOn(rest, d);
        NoFactsWithoutTicks(first.cog, rest, d);
      }
    }
  }

  /** From the cog's start, with a clock whose date never goes backwards,
      the trivia is posted at most once on any date. */
  lemma AtMostOncePerDateFromStart(config: Option<Config>, events: seq<Event>, d: Date)
    requires DatesNonDecreasing(events)
    ensures FactsOn(Run(Start(config), events).log, d) <= 1
  {
    AtMostOncePerDate(Start(config), events, d);
  }

  /** One tick of a running loop whose schedule can be read: the loop runs
      on with the same configuration; the tick posts the fact when it is
      time, the trivia is not yet posted on its date and the API answers
      200, and an error message when only the last of these fails. */
  lemma RunningTick(c: CogState, e: Event)
    requires c.looping && c.config.Some? && e.TickAt?
    requires Schedule.GetSchedule(c.config, e.today).Some?
    ensures var r := Step(c, e);
            var fires := Due(c.config, e.today, e.utcNow) && !SentOn(c.gate, e.today);
            var ok := e.response.statusCode == HttpOk;
            && r.cog.config == c.config && r.cog.looping
            && Facts(r.log) == (if fires && ok then 1 else 0)
            && FactsOn(r.log, e.today) == (if fires && ok then 1 else 0)
            && Errors(r.log) == (if fires && !ok then 1 else 0)
            && (SentOn(r.cog.gate, e.today) <==> SentOn(c.gate, e.today) || (fires && ok))
            && (r.cog.gate.sentToday ==> r.cog.gate.sentDate == Some(e.today))
            && (fires && ok ==>
                  r.log == [Posted(e.today, Fetch), Posted(e.today, SendFact(e.response.fact))])
  {
    var t := Tick(c.gate, c.config, e.today, e.utcNow, e.response);
    TickLogCounts(e.today, t.actions, e.today);
  }

  /** With a working API, a day's ticks post exactly one embed once any of
      them comes at or after the fire time, provided the trivia was not yet
      posted that day and the configuration stays as it is. */
  lemma {:induction false} ExactlyOnceWhenApiUp(c: CogState, events: seq<Event>, d: Date)
    requires c.looping && c.config.Some?
    requires Schedule.GetSchedule(c.config, d).Some?
    requires !SentOn(c.gate, d)
    requires forall i :: 0 <= i < |events| ==>
               events[i].TickAt? && events[i].today == d && events[i].response.statusCode == HttpOk
    requires exists i :: 0 <= i < |events| && Due(c.config, d, events[i].utcNow)
    ensures FactsOn(Run(c, events).log, d) == 1
    ensures SentOn(Run(c, events).cog.gate, d)
    decreases |events|
  {
    var e := events[0];
    var rest := events[1..];
    var first := Step(c, e);
    RunningTick(c, e);
    CountsAppend(first.log, Run(first.cog, rest).log, d);
    assert forall i :: 0 <= i < |rest| ==> rest[i] == events[i + 1];
    if Due(c.config, d, e.utcNow) {
      assert DatesNonDecreasing(rest) && AllTicksOn(rest, d);
      AtMostOncePerDate(first.cog, rest, d);
      SentStaysSent(first.cog, rest, d);
    } else {
      var i :| 0 <= i < |events| && Due(c.config, d, events[i].utcNow);
      assert rest[i - 1] == events[i];
      ExactlyOnceWhenApiUp(first.cog, rest, d);
    }
  }

  /** Ticks on the date the trivia was posted keep it posted. */
  lemma {:induction false} SentStaysSent(c: CogState, events: seq<Event>, d: Date)
    requires SentOn(c.gate, d)
    requires AllTicksOn(events, d)
    ensures SentOn(Run(c, events).cog.gate, d)
    decreases |events|
  {
    if events != [] {
      DatedFacts(events[0], c, d);
      var rest := events[1..];
      assert AllTicksOn(rest, d) by {
        forall i | 0 <= i < |rest| && rest[i].TickAt? ensures rest[i].today == d {
          assert rest[i] == events[i + 1];
        }
      }
      SentStaysSent(Step(c, events[0]).cog, rest, d);
    }
  }

  /** Once the trivia is posted on `d`, later ticks on `d` neither call
      the API nor post anything, whatever the API would answer. */
  lemma {:induction false} SilentOncePosted(c: CogState, events: seq<Event>, d: Date)
    requires SentOn(c.gate, d)
    requires forall i :: 0 <= i < |events| ==> events[i].TickAt? && events[i].today == d
    ensures Run(c, events).log == []
    decreases |events|
  {
    if events != [] {
      DatedFacts(events[0], c, d);
      var rest := events[1..];
      assert forall i :: 0 <= i < |rest| ==> rest[i] == events[i + 1];
      SilentOncePosted(Step(c, events[0]).cog, rest, d);
    }
  }

  /** Failed requests are retried on every later tick of the day: each
      failing tick posts one error message and leaves the trivia unposted,
      the loop running and the configuration as it was. */
  lemma {:induction false} RetryWhileFailing(c: CogState, fails: seq<Event>, d: Date)
    requires c.looping && c.config.Some? && Schedule.GetSchedule(c.config, d).Some?
    requires !SentOn(c.gate, d)
    requires forall i :: 0 <= i < |fails| ==>
               && fails[i].TickAt? && fails[i].today == d
               && Due(c.config, d, fails[i].utcNow) && fails[i].response.statusCode != HttpOk
    ensures var r := Run(c, fails);
            && Errors(r.log) == |fails| && Facts(r.log) == 0
            && !SentOn(r.cog.gate, d) && r.cog.looping && r.cog.config == c.config
    decreases |fails|
  {
    if fails != [] {
      var e := fails[0];
      var rest := fails[1..];
      var first := Step(c, e);
      RunningTick(c, e);
      assert forall i :: 0 <= i < |rest| ==> rest[i] == fails[i + 1];
      RetryWhileFailing(first.cog, rest, d);
      CountsAppend(first.log, Run(first.cog, rest).log, d);
    }
  }

  /** After any number of failed requests, the first tick the API answers
      with 200 posts the day's single embed: a day of due ticks of which
      only the last succeeds posts one error message per failure and then
      the fact. */
  lemma {:induction false} RetryUntilSuccess(c: CogState, events: seq<Event>, d: Date)
    requires c.looping && c.config.Some? && Schedule.GetSchedule(c.config, d).Some?
    requires !SentOn(c.gate, d)
    requires |events| >= 1
    requires forall i :: 0 <= i < |events| ==>
               events[i].TickAt? && events[i].today == d && Due(c.config, d, events[i].utcNow)
    requires forall i :: 0 <= i < |events| - 1 ==> events[i].response.statusCode != HttpOk
    requires events[|events| - 1].response.statusCode == HttpOk
    ensures var r := Run(c, events);
            Errors(r.log) == |events| - 1 && Facts(r.log) == 1 && SentOn(r.cog.gate, d)
    // the fact comes last
    ensures var r := Run(c, events);
            && |r.log| > 0
            && r.log[|r.log| - 1] == Posted(d, SendFact(events[|events| - 1].response.fact))
    decreases |events|
  {
    var e := events[0];
    var rest := events[1..];
    var first := Step(c, e);
    RunningTick(c, e);
    var later := Run(first.cog, rest);
    CountsAppend(first.log, later.log, d);
    if |events| > 1 {
      assert forall i :: 0 <= i < |rest| ==> rest[i] == events[i + 1];
      RetryUntilSuccess(first.cog, rest, d);
      assert (first.log + later.log)[|first.log + later.log| - 1] == later.log[|later.log| - 1];
    } else {
      assert later.log == [];
      assert first.log + later.log == first.log;
    }
  }

  /** A stored schedule strptime cannot read ends the loop at the next tick:
      that tick and every later event post nothing. */
  lemma MalformedScheduleStopsLoop(c: CogState, channelId: int, schedule: string,
                                   tick: Event, later: seq<Event>)
    requires c.config.None? && c.looping
    requires ParseTime(schedule).None?
    requires tick.TickAt?
    ensures var r := Run(c, [SetupCmd(channelId, schedule), tick] + later);
            r.log == [] && !r.cog.looping
  {
    var events := [SetupCmd(channelId, schedule), tick] + later;
    var s1 := Step(c, events[0]);
    assert s1.cog.config == Some(Config(channelId, schedule));
    var s2 := Step(s1.cog, events[1]);
    assert s2.log == [] && !s2.cog.looping;
    StoppedIsSilent(s2.cog, later);
    assert events[1..][1..] == later;
  }

  /** A tick before the fire time does nothing, and the first tick at it,
      with the API answering 200, requests and posts the fact. */
  lemma FiresOnTime(config: Config, d: Date, fire: TimeOfDay, early: TimeOfDay, fact: string)
    requires Schedule.GetSchedule(Some(config), d) == Some(fire)
    requires !AtOrAfter(early, fire)
    ensures var c := Start(Some(config));
            var ok := Response(HttpOk, fact);
            && Run(c, [TickAt(d, early, ok)]).log == []
            && Run(c, [TickAt(d, early, ok), TickAt(d, fire, ok)]).log
               == [Posted(d, Fetch), Posted(d, SendFact(fact))]
  {
    var c := Start(Some(config));
    var ok := Response(HttpOk, fact);
    var e1, e2 := TickAt(d, early, ok), TickAt(d, fire, ok);
    var s1 := Step(c, e1);
    assert s1 == Trace(c, []);
    var s2 := Step(s1.cog, e2);
    assert s2.log == Dated(d, [Fetch, SendFact(fact)]);
    assert s2.log == [Posted(d, Fetch), Posted(d, SendFact(fact))];
    assert [e1, e2][1..] == [e2];
    assert Run(c, [e1]) == Trace(c, []);
    assert Run(c, [e1, e2]).log == s1.log + Run(s1.cog, [e2]).log;
  }

  /** Schedule "09:00" in UTC+8 fires at 01:00 UTC, so a tick at 00:59 does
      nothing and the tick at 01:00 posts the fact the API returns. */
  lemma BeesCanFly(channelId: int, d: Date)
    ensures var c := Start(Some(Config(channelId, "09:00")));
            var ok := Response(200, "Bees can fly.");
            && Run(c, [TickAt(d, TimeOfDay(0, 59, 0, 0), ok)]).log == []
            && Run(c, [TickAt(d, TimeOfDay(0, 59, 0, 0), ok),
                       TickAt(d, TimeOfDay(1, 0, 0, 0), ok)]).log
               == [Posted(d, Fetch), Posted(d, SendFact("Bees can fly."))]
  {
    Schedule.ScheduleExamples(channelId, d);
    FiresOnTime(Config(channelId, "09:00"), d, TimeOfDay(1, 0, 0, 0), TimeOfDay(0, 59, 0, 0),
                "Bees can fly.");
  }

  /** Ticks on dates `d`, then `d'`, then `d` again, each after the fire
      time with the API answering 200, post the fact twice on `d`. */
  lemma RepostsOnReturn(config: Config, d: Date, d': Date, now: TimeOfDay, fact: string)
    requires d != d'
    requires Schedule.GetSchedule(Some(config), d).Some?
    requires AtOrAfter(now, Schedule.GetSchedule(Some(config), d).value)
    ensures var c := Start(Some(config));
            var ok := Response(HttpOk, fact);
            var events := [TickAt(d, now, ok), TickAt(d', now, ok), TickAt(d, now, ok)];
            FactsOn(Run(c, events).log, d) == 2
  {
    var c := Start(Some(config));
    var ok := Response(HttpOk, fact);
    var e1, e2 := TickAt(d, now, ok), TickAt(d', now, ok);
    var events := [e1, e2, e1];
    Schedule.ScheduleIgnoresDate(Some(config), d, d');
    var s1 := Step(c, e1);
    RunningTick(c, e1);
    var s2 := Step(s1.cog, e2);
    RunningTick(s1.cog, e2);
    DatedFacts(e2, s1.cog, d);
    var s3 := Step(s2.cog, e1);
    RunningTick(s2.cog, e1);
    assert events[1..] == [e2, e1] && events[1..][1..] == [e1];
    assert Run(s2.cog, [e1]).log == s3.log + Run(s3.cog, []).log;
    CountsAppend(s3.log, [], d);
    CountsAppend(s2.log, Run(s2.cog, [e1]).log, d);
    CountsAppend(s1.log, Run(s1.cog, [e2, e1]).log, d);
  }

  /** The per-date guarantee rests on the date never going backwards: the
      gate remembers only the last date it posted on. */
  lemma BackwardsClockPostsTwice(channelId: int)
    ensures var c := Start(Some(Config(channelId, "09:00")));
            var ok := Response(200, "f");
            var noon := TimeOfDay(12, 0, 0, 0);
            FactsOn(Run(c, [TickAt(Date(2), noon, ok), TickAt(Date(3), noon, ok),
                            TickAt(Date(2), noon, ok)]).log, Date(2)) == 2
  {
    Schedule.ScheduleExamples(channelId, Date(2));
    Schedule.ScheduleExamples(channelId, Date(3));
    RepostsOnReturn(Config(channelId, "09:00"), Date(2), Date(3), TimeOfDay(12, 0, 0, 0), "f");
  }
}
