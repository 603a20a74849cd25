/**
 The settings of the two scrapers and the table that records their changes.

 Each key has at most one row; deleting only marks it. A transaction that does not commit changes
 nothing.
 */
module Settings {

  const MIN_MINUTES := 1
  const MAX_MINUTES := 43200
  const MIN_DAYS := 1
  const MAX_DAYS := 31
  const MINUTES_PER_DAY := 1440

  datatype Key = News | Price

  datatype Value = Value(active: bool, minutes: int)

  datatype Slot = Absent | Live(value: Value) | Deleted

  datatype Entry = Entry(key: Key, previous: Value, next: Value)

  datatype Tables = Tables(news: Slot, price: Slot, history: seq<Entry>) {
    function Row(key: Key): Slot {
      if key.News? then news else price
    }

    function With(key: Key, slot: Slot, added: seq<Entry>): Tables {
      if key.News? then Tables(slot, price, history + added) else Tables(news, slot, history + added)
    }
  }

  datatype Outcome = Done(value: Value) | AlreadyExists | NotFound | Failed

  // ---------------------------------------------------------------- intervals

  function ClampMinutes(value: int): int {
    if value < MIN_MINUTES then MIN_MINUTES else if value > MAX_MINUTES then MAX_MINUTES else value
  }

  function ClampDays(value: int): int {
    if value < MIN_DAYS then MIN_DAYS else if value > MAX_DAYS then MAX_DAYS else value
  }

  /** Whole days, rounded up; no minutes at all count as a day. */
  function MinutesToDays(value: int): int {
    var minutes := if value <= 0 then MINUTES_PER_DAY else value;
    ClampDays(minutes / MINUTES_PER_DAY + if minutes % MINUTES_PER_DAY != 0 then 1 else 0)
  }

  function DaysToMinutes(days: int): int {
    ClampDays(days) * MINUTES_PER_DAY
  }

  /** The stored minutes hold as many days as were asked for, within the limits. */
  lemma DaysRoundTrip(days: int)
    ensures MinutesToDays(DaysToMinutes(days)) == ClampDays(days)
  {
  }

  /** The days of a number of minutes are the fewest that hold them, within the limits. */
  lemma FewestDays(minutes: int, days: int)
    requires MIN_DAYS <= days <= MAX_DAYS && minutes <= MAX_DAYS * MINUTES_PER_DAY
    ensures MinutesToDays(minutes) <= days <==> minutes <= days * MINUTES_PER_DAY
  {
  }

  // ---------------------------------------------------------------- the operations

  /** A setting as it is read: with its interval brought into the limits. */
  function Effective(key: Key, v: Value): Value {
    match key
    case News => v.(minutes := ClampMinutes(v.minutes))
    case Price => v.(minutes := DaysToMinutes(MinutesToDays(v.minutes)))
  }

  function Default(key: Key): Value {
    Value(false, if key.News? then MIN_MINUTES else DaysToMinutes(MIN_DAYS))
  }

  /** What a request asks for: minutes for news, days for prices; no interval switches the scraper off. */
  function Wanted(key: Key, active: bool, interval: int): Value {
    if interval <= 0 then Default(key)
    else Value(active, if key.News? then ClampMinutes(interval) else DaysToMinutes(ClampDays(interval)))
  }

  /** The value has the switch and the interval that were asked for, within the limits; days are kept as minutes. */
  predicate AsAsked(key: Key, active: bool, interval: int, v: Value) {
    v.active == (active && interval > 0)
    && match key
       case News => v.minutes == if interval < 1 then 1 else if interval > 43200 then 43200 else interval
       case Price => v.minutes == 1440 * if interval < 1 then 1 else if interval > 31 then 31 else interval
  }

  lemma WantedIsAsked(key: Key, active: bool, interval: int)
    ensures AsAsked(key, active, interval, Wanted(key, active, interval))
  {
  }

  /** The fallback of a key is switched off, with the least interval: a minute, or a day. */
  lemma DefaultIs(key: Key)
    ensures Default(key) == Value(false, if key.News? then 1 else 1440)
  {
  }

  /** What a reader sees; a key without a setting is as its default. */
  function Shown(key: Key, slot: Slot): Value {
    if slot.Live? then Effective(key, slot.value) else Default(key)
  }

  function Get(t: Tables, key: Key): Outcome {
    if t.Row(key).Live? then Done(Shown(key, t.Row(key))) else NotFound
  }

  datatype Action =
    | Create(active: bool, interval: int)
    | Update(active: bool, interval: int)
    | Delete

  /** Whether the database commits, and whether its unique index on the key covers deleted rows too. */
  datatype Database = Database(commits: bool, deletedTaken: bool)

  function Apply(t: Tables, key: Key, action: Action, db: Database): (Tables, Outcome) {
    match action
    case Create(active, interval) =>
      var next := Wanted(key, active, interval);
      if t.Row(key).Live? then (t, AlreadyExists)
      else if !db.commits || (db.deletedTaken && t.Row(key).Deleted?) then (t, Failed)
      else (t.With(key, Live(next), [Entry(key, Default(key), next)]), Done(next))
    case Update(active, interval) =>
      var next := Wanted(key, active, interval);
      var previous := Shown(key, t.Row(key));
      if !t.Row(key).Live? then (t, NotFound)
      else if !db.commits then (t, Failed)
      else (t.With(key, Live(next), if previous != next then [Entry(key, previous, next)] else []), Done(next))
    case Delete =>
      var previous := Shown(key, t.Row(key));
      if !t.Row(key).Live? then (t, NotFound)
      else if !db.commits then (t, Failed)
      else (t.With(key, Deleted, [Entry(key, previous, Default(key))]), Done(previous))
  }

  // ---------------------------------------------------------------- the ledger

  /** The entries of one key, oldest first. */
  function Ledger(key: Key, history: seq<Entry>): seq<Entry> {
    if history == [] then []
    else Ledger(key, history[..|history| - 1]) + if history[|history| - 1].key == key then [history[|history| - 1]] else []
  }

  /** Every entry continues from the one before it, the first from a given value. */
  ghost predicate Continuous(start: Value, ledger: seq<Entry>) {
    (ledger == [] || ledger[0].previous == start)
    && forall i, j | 0 <= i < |ledger| && j == i + 1 < |ledger| :: ledger[j].previous == ledger[i].next
  }

  /** The value that the entries lead to. */
  function Replay(start: Value, ledger: seq<Entry>): Value {
    if ledger == [] then start else ledger[|ledger| - 1].next
  }

  ghost predicate LedgerTells(key: Key, start: Value, t: Tables) {
    Continuous(start, Ledger(key, t.history)) && Replay(start, Ledger(key, t.history)) == Shown(key, t.Row(key))
  }

  lemma ContinuousAppend(start: Value, ledger: seq<Entry>, e: Entry)
    requires Continuous(start, ledger) && e.previous == Replay(start, ledger)
    ensures Continuous(start, ledger + [e]) && Replay(start, ledger + [e]) == e.next
  {
  }

  lemma LedgerAppend(key: Key, history: seq<Entry>, added: seq<Entry>)
    requires |added| <= 1
    ensures Ledger(key, history + added) == Ledger(key, history) + if added != [] && added[0].key == key then added else []
  {
    if added != [] {
      assert (history + added)[..|history + added| - 1] == history;
    } else {
      assert history + added == history;
    }
  }

  lemma WantedIsEffective(key: Key, active: bool, interval: int)
    ensures Effective(key, Wanted(key, active, interval)) == Wanted(key, active, interval)
  {
  }

  /**
   An operation touches one row. It adds an entry exactly when that row comes, goes or shows another
   value, and the entry leads from what was shown to what is shown.
   */
  lemma ApplyAdds(t: Tables, key: Key, action: Action, db: Database) returns (added: seq<Entry>)
    ensures var t' := Apply(t, key, action, db).0;
            var before, after := Shown(key, t.Row(key)), Shown(key, t'.Row(key));
            t'.history == t.history + added && (forall k | k != key :: t'.Row(k) == t.Row(k))
            && (added == [] <==> t.Row(key).Live? == t'.Row(key).Live? && before == after)
            && (added == [] || added == [Entry(key, before, after)])
  {
    var t' := Apply(t, key, action, db).0;
    added := t'.history[|t.history|..];
    assert t.history + [] == t.history;
    if !action.Delete? { WantedIsEffective(key, action.active, action.interval); }
  }

  lemma ApplyKeepsLedger(t: Tables, key: Key, action: Action, db: Database, other: Key, start: Value)
    requires LedgerTells(other, start, t)
    ensures LedgerTells(other, start, Apply(t, key, action, db).0)
  {
    var added := ApplyAdds(t, key, action, db);
    LedgerAppend(other, t.history, added);
    if added == [] || other != key {
      assert Ledger(other, t.history) + [] == Ledger(other, t.history);
    } else {
      ContinuousAppend(start, Ledger(other, t.history), added[0]);
    }
  }

  datatype Step = Step(key: Key, action: Action, db: Database)

  function Run(t: Tables, steps: seq<Step>): Tables {
    if steps == [] then t
    else
      var s := steps[|steps| - 1];
      Apply(Run(t, steps[..|steps| - 1]), s.key, s.action, s.db).0
  }

  lemma {:induction false} RunKeepsLedger(t: Tables, steps: seq<Step>, key: Key, start: Value)
    requires LedgerTells(key, start, t)
    ensures LedgerTells(key, start, Run(t, steps))
  {
    if steps != [] {
      var s := steps[|steps| - 1];
      RunKeepsLedger(t, steps[..|steps| - 1], key, start);
      ApplyKeepsLedger(Run(t, steps[..|steps| - 1]), s.key, s.action, s.db, key, start);
    }
  }

  /**
   Over any run on both keys the entries of each key continue from one another and lead to its
   present setting. They start from what was shown before the run, and so from the default of the
   key just when no other setting was in force.
   */
  lemma LedgerOfRun(t: Tables, steps: seq<Step>, key: Key)
    requires t.history == []
    ensures LedgerTells(key, Shown(key, t.Row(key)), Run(t, steps))
    ensures Continuous(Default(key), Ledger(key, Run(t, steps).history))
        <==> Ledger(key, Run(t, steps).history) == [] || Shown(key, t.Row(key)) == Default(key)
  {
    RunKeepsLedger(t, steps, key, Shown(key, t.Row(key)));
    var ledger := Ledger(key, Run(t, steps).history);
    assert ledger == [] || ledger[0].previous == Shown(key, t.Row(key));
  }

  /** Both keys are seeded with an inactive interval of five minutes. */
  const SEEDED := Tables(Live(Value(false, 5)), Live(Value(false, 5)), [])

  /** So the ledger of prices starts from the default, while that of news never does. */
  lemma SeededLedgers(steps: seq<Step>)
    ensures Continuous(Default(Price), Ledger(Price, Run(SEEDED, steps).history))
    ensures Continuous(Default(News), Ledger(News, Run(SEEDED, steps).history)) <==> Ledger(News, Run(SEEDED, steps).history) == []
  {
    LedgerOfRun(SEEDED, steps, News);
    LedgerOfRun(SEEDED, steps, Price);
  }

  lemma StaysDeleted(t: Tables, key: Key, s: Step)
    requires t.Row(key).Deleted? && s.db.deletedTaken
    ensures var t' := Apply(t, s.key, s.action, s.db).0;
            t'.Row(key).Deleted? && Ledger(key, t'.history) == Ledger(key, t.history)
  {
    var added := ApplyAdds(t, s.key, s.action, s.db);
    LedgerAppend(key, t.history, added);
  }

  /** While the index covers deleted rows, a deleted setting is gone for good. */
  lemma {:induction false} DeletedForGood(t: Tables, steps: seq<Step>, key: Key)
    requires t.Row(key).Deleted? && forall s | s in steps :: s.db.deletedTaken
    ensures Run(t, steps).Row(key).Deleted? && Ledger(key, Run(t, steps).history) == Ledger(key, t.history)
  {
    if steps != [] {
      DeletedForGood(t, steps[..|steps| - 1], key);
      StaysDeleted(Run(t, steps[..|steps| - 1]), key, steps[|steps| - 1]);
    }
  }

  /** Whatever is done, a reader sees an interval within the limits, and whole days for prices. */
  lemma ShownWithinLimits(key: Key, slot: Slot)
    ensures MIN_MINUTES <= Shown(key, slot).minutes
    ensures key.News? ==> Shown(key, slot).minutes <= MAX_MINUTES
    ensures key.Price? ==> Shown(key, slot).minutes == MinutesToDays(Shown(key, slot).minutes) * MINUTES_PER_DAY
  {
  }

  /** So many minutes in whole days: the fewest days that hold them, but at least one and at most 31. */
  predicate WholeDays(minutes: int, whole: int) {
    whole % 1440 == 0 && 1440 <= whole <= 31 * 1440
    && (minutes > whole ==> whole == 31 * 1440) && (minutes <= whole - 1440 ==> whole == 1440)
  }

  lemma ShownIsWhole(slot: Slot)
    ensures slot.Live? ==> WholeDays(slot.value.minutes, Shown(Price, slot).minutes)
  {
  }

  // ---------------------------------------------------------------- the service

  /** The row of the other key is as it was. */
  predicate Others(before: map<Key, Slot>, after: map<Key, Slot>, key: Key) {
    forall k | k in before && k != key :: k in after && after[k] == before[k]
  }

  class Service {
    var rows: map<Key, Slot>
    var history: seq<Entry>

    ghost predicate Valid()
      reads this
    {
      News in rows && Price in rows
    }

    ghost function State(): Tables
      reads this
      requires Valid()
    {
      Tables(rows[News], rows[Price], history)
    }

    constructor (t: Tables)
      ensures Valid() && State() == t
    {
      rows, history := map[News := t.news, Price := t.price], t.history;
    }

    method GetSetting(key: Key) returns (r: Outcome)
      requires Valid()
      ensures r == Get(State(), key)
      ensures r == NotFound <==> !rows[key].Live?
      ensures rows[key].Live? ==> r.Done? && r.value.active == rows[key].value.active
      ensures rows[key].Live? && key.News? ==>
                var m := rows[key].value.minutes; r.value.minutes == if m < 1 then 1 else if m > 43200 then 43200 else m
      ensures rows[key].Live? && key.Price? ==> WholeDays(rows[key].value.minutes, r.value.minutes)
    {
      ShownIsWhole(rows[key]);
      match rows[key] {
        case Live(setting) =>
          var minutes := setting.minutes;
          match key {
            case News => minutes := ClampMinutes(minutes);
            case Price => minutes := DaysToMinutes(MinutesToDays(minutes));
          }
          r := Done(setting.(minutes := minutes));
        case _ =>
          r := NotFound;
      }
    }

    method CreateSetting(key: Key, active: bool, interval: int, db: Database) returns (r: Outcome)
      requires Valid()
      modifies this
      ensures Valid() && (State(), r) == Apply(old(State()), key, Create(active, interval), db)
      ensures r == AlreadyExists <==> old(rows)[key].Live?
      ensures r == Failed <==> !old(rows)[key].Live? && (!db.commits || (db.deletedTaken && old(rows)[key].Deleted?))
      ensures r.Done? ==> AsAsked(key, active, interval, r.value) && rows[key] == Live(r.value)
                          && history == old(history) + [Entry(key, Value(false, if key.News? then 1 else 1440), r.value)]
      ensures if r.Done? then Others(old(rows), rows, key) else rows == old(rows) && history == old(history)
    {
      WantedIsAsked(key, active, interval);
      DefaultIs(key);
      if rows[key].Live? { return AlreadyExists; }
      var nextInterval, nextIsActive := interval, active;
      if nextInterval <= 0 {
        nextInterval, nextIsActive := 1, false;
      }
      var minutes := if key.News? then ClampMinutes(nextInterval) else DaysToMinutes(ClampDays(nextInterval));
      var setting := Value(nextIsActive, minutes);
      if !db.commits || (db.deletedTaken && rows[key].Deleted?) { return Failed; }
      rows := rows[key := Live(setting)];
      history := history + [Entry(key, Default(key), setting)];
      r := Done(setting);
    }

    method UpdateSetting(key: Key, active: bool, interval: int, db: Database) returns (r: Outcome)
      requires Valid()
      modifies this
      ensures Valid() && (State(), r) == Apply(old(State()), key, Update(active, interval), db)
      ensures r == NotFound <==> !old(rows)[key].Live?
      ensures r == Failed <==> old(rows)[key].Live? && !db.commits
      ensures r.Done? ==> AsAsked(key, active, interval, r.value) && rows[key] == Live(r.value)
                          && history == old(history) + if old(Shown(key, rows[key])) == r.value then [] else [Entry(key, old(Shown(key, rows[key])), r.value)]
      ensures if r.Done? then Others(old(rows), rows, key) else rows == old(rows) && history == old(history)
    {
      WantedIsAsked(key, active, interval);
      var nextInterval, nextIsActive := interval, active;
      if nextInterval <= 0 {
        nextInterval, nextIsActive := 1, false;
      }
      r := GetSetting(key);
      if r.Done? {
        var previous := r.value;
        var minutes := if key.News? then ClampMinutes(nextInterval) else DaysToMinutes(ClampDays(nextInterval));
        var setting := Value(nextIsActive, minutes);
        if !db.commits { return Failed; }
        assert history + [] == history;
        rows := rows[key := Live(setting)];
        if previous.active != setting.active || previous.minutes != setting.minutes {
          history := history + [Entry(key, previous, setting)];
        }
        r := Done(setting);
      }
    }

    method DeleteSetting(key: Key, db: Database) returns (r: Outcome)
      requires Valid()
      modifies this
      ensures Valid() && (State(), r) == Apply(old(State()), key, Delete, db)
      ensures r == NotFound <==> !old(rows)[key].Live?
      ensures r == Failed <==> old(rows)[key].Live? && !db.commits
      ensures r.Done? ==> rows[key] == Deleted && r.value == old(Shown(key, rows[key]))
                          && history == old(history) + [Entry(key, r.value, Value(false, if key.News? then 1 else 1440))]
      ensures if r.Done? then Others(old(rows), rows, key) else rows == old(rows) && history == old(history)
    {
      DefaultIs(key);
      r := GetSetting(key);
      if r.Done? {
        if !db.commits { return Failed; }
        history := history + [Entry(key, r.value, Default(key))];
        rows := rows[key := Deleted];
      }
    }
  }
}
