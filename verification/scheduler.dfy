/** The loops that start the scrapers when their settings say so. Instants are in nanoseconds. */
module Scheduler {
  import opened Text
  import opened Settings

  const MINUTE := 60_000_000_000
  const DAY := 24 * 60 * MINUTE

  /** One round of the loop: whether the setting could be read, and the clock at the check and at the start of a run. */
  datatype Tick = Tick(readable: bool, checkAt: int, startAt: int)

  datatype Start = Start(at: int, every: int)

  /** The days of a price setting, as the loop computes them anew. */
  function LoopDays(minutes: int): int {
    var days := minutes / MINUTES_PER_DAY + if minutes % MINUTES_PER_DAY != 0 then 1 else 0;
    if days <= 0 then 1 else days
  }

  function Every(key: Key, minutes: int): int {
    if key.News? then minutes * MINUTE else LoopDays(minutes) * DAY
  }

  predicate Due(last: Option<int>, every: int, checkAt: int) {
    last.None? || checkAt - last.value >= every
  }

  /** The run that a round starts, if any. */
  function Cycle(t: Tables, key: Key, last: Option<int>, tick: Tick): Option<Start> {
    var setting := Get(t, key);
    if !tick.readable || setting.NotFound? then None
    else
      var every := Every(key, setting.value.minutes);
      if setting.value.active && Due(last, every, tick.checkAt) then Some(Start(tick.startAt, every)) else None
  }

  /** The loop waits the minutes that a reader of the setting sees. */
  lemma EveryIsShown(key: Key, slot: Slot)
    ensures Every(key, Shown(key, slot).minutes) == Shown(key, slot).minutes * MINUTE
    ensures slot.Live? ==> Shown(key, slot).active == slot.value.active
  {
    ShownWithinLimits(key, slot);
    if key.Price? {
      var days := MinutesToDays(Shown(key, slot).minutes);
      assert days * MINUTES_PER_DAY / MINUTES_PER_DAY == days && days * MINUTES_PER_DAY % MINUTES_PER_DAY == 0;
    }
  }

  /** For prices the loop waits as many days as were asked for, through the minutes stored and read. */
  lemma LoopWaitsTheDaysAsked(active: bool, days: int)
    requires days > 0
    ensures Every(Price, Shown(Price, Live(Wanted(Price, active, days))).minutes) == ClampDays(days) * DAY
  {
    DaysRoundTrip(days);
  }

  /** Price runs are never configured closer than a day, news runs never closer than a minute. */
  lemma EveryAtLeast(key: Key, slot: Slot)
    ensures Every(key, Shown(key, slot).minutes) >= if key.News? then MINUTE else DAY
  {
    ShownWithinLimits(key, slot);
  }

  // ---------------------------------------------------------------- runs of the loop amid changes

  /** What happens to one scheduler: somebody changes a setting, or the loop goes round. */
  datatype Event = Change(step: Step) | Round(tick: Tick)

  datatype World = World(tables: Tables, last: Option<int>, starts: seq<Start>)

  function Next(w: World, key: Key, e: Event): World {
    match e
    case Change(s) => w.(tables := Apply(w.tables, s.key, s.action, s.db).0)
    case Round(tick) =>
      var start := Cycle(w.tables, key, w.last, tick);
      if start.None? then w else w.(last := Some(start.value.at), starts := w.starts + [start.value])
  }

  function RunEvents(w: World, key: Key, events: seq<Event>): World {
    if events == [] then w
    else Next(RunEvents(w, key, events[..|events| - 1]), key, events[|events| - 1])
  }

  /** A run starts no earlier than the check that allowed it. */
  ghost predicate ClockRuns(events: seq<Event>) {
    forall e | e in events && e.Round? :: e.tick.checkAt <= e.tick.startAt
  }

  ghost predicate Spaced(starts: seq<Start>) {
    forall i, j | 0 <= i < |starts| && j == i + 1 < |starts| :: starts[j].at - starts[i].at >= starts[j].every
  }

  ghost predicate LastIsKept(w: World) {
    w.last == if w.starts == [] then None else Some(w.starts[|w.starts| - 1].at)
  }

  ghost predicate EveryIsConfigured(key: Key, starts: seq<Start>) {
    forall s | s in starts :: s.every >= if key.News? then MINUTE else DAY
  }

  lemma NextKeepsSpacing(w: World, key: Key, e: Event)
    requires LastIsKept(w) && Spaced(w.starts) && EveryIsConfigured(key, w.starts)
    requires e.Round? ==> e.tick.checkAt <= e.tick.startAt
    ensures LastIsKept(Next(w, key, e)) && Spaced(Next(w, key, e).starts) && EveryIsConfigured(key, Next(w, key, e).starts)
  {
    EveryAtLeast(key, w.tables.Row(key));
  }

  /**
   Whatever changes and read errors happen in between, each run starts at least as long after the
   one before it as the interval in force when it starts, and price runs at least a day.
   */
  lemma {:induction false} RunsAreSpaced(t: Tables, key: Key, events: seq<Event>)
    requires ClockRuns(events)
    ensures var w := RunEvents(World(t, None, []), key, events);
            LastIsKept(w) && Spaced(w.starts) && EveryIsConfigured(key, w.starts)
  {
    if events != [] {
      var before := events[..|events| - 1];
      RunsAreSpaced(t, key, before);
      NextKeepsSpacing(RunEvents(World(t, None, []), key, before), key, events[|events| - 1]);
    }
  }

  /** So two price runs, next to each other or not, are at least as many days apart as there are runs from one to the other. */
  lemma {:induction false} PriceRunsAreDaysApart(t: Tables, events: seq<Event>, i: nat, j: nat)
    requires ClockRuns(events)
    requires i <= j < |RunEvents(World(t, None, []), Price, events).starts|
    ensures var starts := RunEvents(World(t, None, []), Price, events).starts;
            starts[j].at - starts[i].at >= (j - i) * DAY
    decreases j
  {
    RunsAreSpaced(t, Price, events);
    if i < j {
      PriceRunsAreDaysApart(t, events, i, j - 1);
      var starts := RunEvents(World(t, None, []), Price, events).starts;
      assert starts[j] in starts;
    }
  }

  // ---------------------------------------------------------------- the loop's state

  class Loop {
    const key: Key
    var lastRunAt: Option<int>
    var lastOn: bool
    var lastEvery: int
    var hasConfig: bool
    var running: bool
    var starts: seq<Start>

    constructor (key: Key)
      ensures this.key == key && lastRunAt == None && !running && starts == []
    {
      this.key := key;
      lastRunAt, lastOn, lastEvery, hasConfig, running, starts := None, false, 0, false, false, [];
    }

    /** One round; the scraper runs within it, so no round meets another that is running. */
    method RunCycle(service: Service, tick: Tick)
      requires service.Valid() && !running
      modifies this
      ensures !running
      ensures World(service.State(), lastRunAt, starts)
           == Next(old(World(service.State(), lastRunAt, starts)), key, Round(tick))
      ensures var row := service.State().Row(key);
              var starting := tick.readable && row.Live? && row.value.active && (old(lastRunAt).Some? ==>
                                tick.checkAt - old(lastRunAt).value >= Shown(key, row).minutes * MINUTE);
              if starting then starts == old(starts) + [Start(tick.startAt, Shown(key, row).minutes * MINUTE)] && lastRunAt == Some(tick.startAt)
              else starts == old(starts) && lastRunAt == old(lastRunAt)
    {
      EveryIsShown(key, service.State().Row(key));
      if running || !tick.readable { return; }
      var config := service.GetSetting(key);
      if !config.Done? { return; }
      var configured := config.value.minutes;
      if key.Price? {
        configured := config.value.minutes / MINUTES_PER_DAY;
        if config.value.minutes % MINUTES_PER_DAY != 0 {
          configured := configured + 1;
        }
        if configured <= 0 {
          configured := 1;
        }
      }
      if !hasConfig || config.value.active != lastOn || configured != lastEvery {
        lastOn, lastEvery, hasConfig := config.value.active, configured, true;
      }
      if !config.value.active { return; }
      var interval := configured * if key.News? then MINUTE else DAY;
      if lastRunAt.Some? && tick.checkAt - lastRunAt.value < interval { return; }
      running := true;
      lastRunAt := Some(tick.startAt);
      starts := starts + [Start(tick.startAt, interval)];
      running := false;
    }
  }
}
