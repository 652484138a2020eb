/**
 * The persisted daily record of the widget (`AppState` in types.ts) and the
 * pure transitions App.tsx applies to it through `setState(prev => ...)`.
 *
 * A tick of the one-second interval is modelled as one step with the local
 * date, hour and minute as inputs; `TickStep` is what a whole tick does to
 * the record, and the trace lemmas at the end state the scheduling
 * guarantees over any sequence of ticks and user actions.
 */
module DailyState {
  import opened Wrappers
  import opened ReminderTime

  /** `addGlass` never raises the count above this. */
  const MAX_COUNT: int := 24
  /** Number of glass icons drawn, also the daily goal shown; not a bound on the count. */
  const GLASSES_SHOWN: nat := 8

  /** `AppState`: `lastReminderHour` is `number | null`, `lastDate` the date string of the day. */
  datatype AppState = AppState(count: int, isActive: bool, lastReminderHour: Option<int>, lastDate: string)

  /** What the durable cache yields at start-up: no entry, an entry that fails to parse, or a record. */
  datatype Cache = Missing | Malformed | Parsed(saved: AppState)

  /** The record the day starts with. */
  function Fresh(today: string): (s: AppState)
  {
    AppState(0, false, None, today)
  }

  /** The count invariant: between zero and MAX_COUNT. */
  predicate CountInRange(s: AppState)
  {
    0 <= s.count <= MAX_COUNT
  }

  /**
   * The state initialiser: a parsed record is adopted only when it belongs
   * to today; a missing, unparsable or stale entry gives a fresh day.
   */
  function Load(cache: Cache, today: string): (s: AppState)
    ensures s.lastDate == today
    ensures cache.Parsed? && cache.saved.lastDate == today ==> s == cache.saved
    ensures !(cache.Parsed? && cache.saved.lastDate == today) ==>
              s.count == 0 && !s.isActive && s.lastReminderHour == None
  {
    match cache
    case Parsed(saved) => if saved.lastDate == today then saved else Fresh(today)
    case _ => Fresh(today)
  }

  /** The `addGlass` updater: one more glass, clamped at MAX_COUNT. */
  function AddGlass(prev: AppState): (s: AppState)
    ensures s == prev.(count := s.count)
    ensures s.count <= MAX_COUNT
    ensures prev.count < MAX_COUNT ==> s.count == prev.count + 1
    ensures prev.count >= MAX_COUNT ==> s.count == MAX_COUNT
  {
    prev.(count := if prev.count + 1 < MAX_COUNT then prev.count + 1 else MAX_COUNT)
  }

  /** The `resetCount` updater, applied once the user confirms. */
  function ResetCount(prev: AppState): (s: AppState)
    ensures s.count == 0
    ensures s.isActive == prev.isActive && s.lastReminderHour == prev.lastReminderHour && s.lastDate == prev.lastDate
  {
    prev.(count := 0)
  }

  /** The `toggleApp` updater: pause or resume reminders. */
  function ToggleApp(prev: AppState): (s: AppState)
    ensures s.isActive != prev.isActive
    ensures s.count == prev.count && s.lastReminderHour == prev.lastReminderHour && s.lastDate == prev.lastDate
  {
    prev.(isActive := !prev.isActive)
  }

  /** The day-rollover updater of the tick: a new day keeps only `isActive`. */
  function Rollover(prev: AppState, today: string): (s: AppState)
    ensures s.count == 0 && s.lastReminderHour == None && s.lastDate == today
    ensures s.isActive == prev.isActive
  {
    prev.(count := 0, lastDate := today, lastReminderHour := None)
  }

  /** The `triggerReminder` updater: records the hour a reminder fired for. */
  function Trigger(prev: AppState, hour: int): (s: AppState)
    ensures s.lastReminderHour == Some(hour)
    ensures s.count == prev.count && s.isActive == prev.isActive && s.lastDate == prev.lastDate
  {
    prev.(lastReminderHour := Some(hour))
  }

  /** The fire condition of the tick, with the last-fired hour read from the ref. */
  predicate ShouldFire(isActive: bool, hour: Hour, minute: Minute, lastTriggered: Option<int>)
  {
    isActive && IsWithinReminderPeriod(hour) && minute == 0 && lastTriggered != Some(hour)
  }

  /** What one step does: the new record and whether a reminder fired. */
  datatype Outcome = Outcome(state: AppState, fired: bool)

  /**
   * One tick of the interval: roll over to a new day first, then fire when
   * reminders are on, the hour is in the window, it is minute 0 and this
   * hour has not fired yet today.
   */
  function TickStep(s: AppState, today: string, hour: Hour, minute: Minute): (o: Outcome)
    ensures o.fired <==>
              s.isActive && START_HOUR <= hour <= END_HOUR && minute == 0 &&
              (s.lastDate != today || s.lastReminderHour != Some(hour))
    ensures o.state.lastDate == today && o.state.isActive == s.isActive
    ensures o.state.count == if s.lastDate == today then s.count else 0
    ensures o.state.lastReminderHour ==
              if o.fired then Some(hour) else if s.lastDate == today then s.lastReminderHour else None
  {
    var rolled := if s.lastDate != today then Rollover(s, today) else s;
    if ShouldFire(s.isActive, hour, minute, rolled.lastReminderHour) then
      Outcome(Trigger(rolled, hour), true)
    else
      Outcome(rolled, false)
  }

  /** The `glasses` row: slot `i` is drawn full exactly when `i < count`. */
  function Glasses(count: int): (g: seq<bool>)
    ensures |g| == GLASSES_SHOWN
  {
    seq(GLASSES_SHOWN, i => i < count)
  }

  // ---------------------------------------------------------------------------
  // Sequences of ticks and user actions

  /** An input to the widget: a button press or a tick of the interval. */
  datatype Action =
    | AddGlassPressed
    | ResetPressed(confirmed: bool)
    | TogglePressed
    | CheckInPressed
    | CheckInDismissed
    | Tick(today: string, hour: Hour, minute: Minute)

  /** The effect of one action on the record. */
  function Apply(s: AppState, a: Action): (o: Outcome)
  {
    match a
    case AddGlassPressed => Outcome(AddGlass(s), false)
    case ResetPressed(confirmed) => Outcome(if confirmed then ResetCount(s) else s, false)
    case TogglePressed => Outcome(ToggleApp(s), false)
    case CheckInPressed => Outcome(AddGlass(s), false)
    case CheckInDismissed => Outcome(s, false)
    case Tick(today, hour, minute) => TickStep(s, today, hour, minute)
  }

  /** The record after a whole trace of actions. */
  function Run(s: AppState, trace: seq<Action>): (final: AppState)
    decreases |trace|
  {
    if trace == [] then s else Run(Apply(s, trace[0]).state, trace[1..])
  }

  /** How many reminders fire along a trace. */
  function Fires(s: AppState, trace: seq<Action>): (n: nat)
    decreases |trace|
  {
    if trace == [] then 0
    else (if Apply(s, trace[0]).fired then 1 else 0) + Fires(Apply(s, trace[0]).state, trace[1..])
  }

  /** Every tick of the trace reads the same date and hour. */
  predicate TicksWithin(trace: seq<Action>, today: string, hour: Hour)
  {
    forall i :: 0 <= i < |trace| && trace[i].Tick? ==> trace[i].today == today && trace[i].hour == hour
  }

  /** The hour has already fired on that date. */
  predicate AlreadyFired(s: AppState, today: string, hour: Hour)
  {
    s.lastDate == today && s.lastReminderHour == Some(hour)
  }

  /** Toggling twice restores the record. */
  lemma ToggleTwice(s: AppState)
    ensures ToggleApp(ToggleApp(s)) == s
  {
  }

  /** Start-up satisfies the count invariant unless an adopted cached record breaks it. */
  lemma LoadCountInRange(cache: Cache, today: string)
    requires cache.Parsed? && cache.saved.lastDate == today ==> CountInRange(cache.saved)
    ensures CountInRange(Load(cache, today))
  {
  }

  /** From a count in 0..MAX_COUNT, every action keeps the count within 0..MAX_COUNT. */
  lemma {:induction false} RunKeepsCountInRange(s: AppState, trace: seq<Action>)
    requires CountInRange(s)
    ensures CountInRange(Run(s, trace))
    decreases |trace|
  {
    if trace != [] {
      RunKeepsCountInRange(Apply(s, trace[0]).state, trace[1..]);
    }
  }

  /**
   * From a count in 0..MAX_COUNT, the count only goes down through a
   * confirmed reset or a new day: every other action leaves it as it was or
   * one higher. (An unvalidated cached count above MAX_COUNT drops to
   * MAX_COUNT on the next "+".)
   */
  lemma CountOnlyDropsOnResetOrNewDay(s: AppState, a: Action)
    requires CountInRange(s)
    requires !(a.ResetPressed? && a.confirmed)
    requires a.Tick? ==> a.today == s.lastDate
    ensures Apply(s, a).state.count == s.count ||
            (Apply(s, a).state.count == s.count + 1 && (a.AddGlassPressed? || a.CheckInPressed?))
  {
  }

  /**
   * Along any trace whose ticks all read one date and one hour, at most one
   * reminder fires, and none if that hour had already fired on that date.
   */
  lemma {:induction false} FiresAtMostOncePerHour(s: AppState, trace: seq<Action>, today: string, hour: Hour)
    requires TicksWithin(trace, today, hour)
    ensures Fires(s, trace) <= if AlreadyFired(s, today, hour) then 0 else 1
    decreases |trace|
  {
    if trace != [] {
      var o := Apply(s, trace[0]);
      assert TicksWithin(trace[1..], today, hour) by {
        forall i | 0 <= i < |trace[1..]| && trace[1..][i].Tick?
          ensures trace[1..][i].today == today && trace[1..][i].hour == hour
        {
          assert trace[1..][i] == trace[i + 1];
        }
      }
      FiresAtMostOncePerHour(o.state, trace[1..], today, hour);
      if o.fired {
        assert trace[0].Tick?;
        assert AlreadyFired(o.state, today, hour);
      }
    }
  }

  /**
   * Along a trace of ticks at one date and hour, with reminders on and no
   * toggle, a tick at minute 0 of an in-window hour makes a reminder fire
   * unless the hour had already fired that day.
   */
  lemma {:induction false} FiresAtLeastOnceAtTopOfHour(s: AppState, trace: seq<Action>, today: string, hour: Hour)
    requires TicksWithin(trace, today, hour)
    requires TogglePressed !in trace
    requires Tick(today, hour, 0) in trace
    requires s.isActive && IsWithinReminderPeriod(hour) && !AlreadyFired(s, today, hour)
    ensures Fires(s, trace) >= 1
    decreases |trace|
  {
    var o := Apply(s, trace[0]);
    if !o.fired {
      assert trace[0] != Tick(today, hour, 0);
      assert trace == [trace[0]] + trace[1..];
      assert TicksWithin(trace[1..], today, hour) by {
        forall i | 0 <= i < |trace[1..]| && trace[1..][i].Tick?
          ensures trace[1..][i].today == today && trace[1..][i].hour == hour
        {
          assert trace[1..][i] == trace[i + 1];
        }
      }
      FiresAtLeastOnceAtTopOfHour(o.state, trace[1..], today, hour);
    }
  }

  /**
   * Feeding the widget ticks throughout one in-window hour, including its
   * minute 0, with reminders on, fires exactly one reminder.
   */
  lemma FiresExactlyOnceInHour(s: AppState, trace: seq<Action>, today: string, hour: Hour)
    requires TicksWithin(trace, today, hour)
    requires TogglePressed !in trace
    requires Tick(today, hour, 0) in trace
    requires s.isActive && IsWithinReminderPeriod(hour) && !AlreadyFired(s, today, hour)
    ensures Fires(s, trace) == 1
  {
    FiresAtMostOncePerHour(s, trace, today, hour);
    FiresAtLeastOnceAtTopOfHour(s, trace, today, hour);
  }

  /**
   * A reload within an hour that already fired does not fire it again:
   * the adopted record carries the hour, and the ref starts from it.
   */
  lemma ReloadDoesNotRefire(saved: AppState, today: string, hour: Hour, minute: Minute)
    requires AlreadyFired(saved, today, hour)
    ensures !TickStep(Load(Parsed(saved), today), today, hour, minute).fired
  {
  }

  /** Number of `true` entries. */
  function CountFilled(g: seq<bool>): (n: nat)
    decreases |g|
  {
    if g == [] then 0 else CountFilled(g[..|g| - 1]) + (if g[|g| - 1] then 1 else 0)
  }

  lemma {:induction false} FilledPrefix(n: nat, count: int)
    ensures CountFilled(seq(n, i => i < count)) == if count <= 0 then 0 else if count < n then count else n
  {
    if n > 0 {
      var g := seq(n, i => i < count);
      assert g[..n - 1] == seq(n - 1, i => i < count);
      FilledPrefix(n - 1, count);
    }
  }

  /** The row shows `count` full glasses, clipped to 0..GLASSES_SHOWN. */
  lemma GlassesShowCount(count: int)
    ensures CountFilled(Glasses(count)) == if count <= 0 then 0 else if count < GLASSES_SHOWN then count else GLASSES_SHOWN
    ensures forall i :: 0 <= i < GLASSES_SHOWN ==> (Glasses(count)[i] <==> i < count)
  {
    FilledPrefix(GLASSES_SHOWN, count);
  }
}
