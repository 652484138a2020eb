/**
 * The App component as an object: the daily record, the
 * "last triggered hour" ref that the tick reads, and the check-in modal
 * flag. Each user action and each tick is a method; the record is updated
 * with the pure transitions of DailyState, and every method ends by
 * re-running the persistence effect, which copies
 * `state.lastReminderHour` into the ref.
 */
module App {
  import opened Wrappers
  import opened ReminderTime
  import opened DailyState

  class Component {
    /** `state` of the component. */
    var state: AppState
    /** `lastTriggeredHourRef.current`. */
    var lastTriggeredHour: Option<int>
    /** `showCheckInModal`. */
    var showCheckInModal: bool

    /** The ref agrees with the record between actions. */
    predicate Valid()
      reads this
    {
      lastTriggeredHour == state.lastReminderHour
    }

    /** Mount: the state initialiser, the ref seeded from it, modal closed. */
    constructor (cache: Cache, today: string)
      ensures Valid()
      ensures state == Load(cache, today)
      ensures !showCheckInModal
    {
      state := Load(cache, today);
      lastTriggeredHour := Load(cache, today).lastReminderHour;
      showCheckInModal := false;
    }

    /** The effect that runs after each state change; the cache write is not modelled. */
    method SyncRef()
      modifies this`lastTriggeredHour
      ensures Valid()
      ensures lastTriggeredHour == state.lastReminderHour
    {
      lastTriggeredHour := state.lastReminderHour;
    }

    method AddGlass()
      requires Valid()
      modifies this
      ensures Valid()
      ensures state == Apply(old(state), AddGlassPressed).state
      ensures showCheckInModal == old(showCheckInModal)
    {
      state := DailyState.AddGlass(state);
      SyncRef();
    }

    /** `resetCount`; `confirmed` is the user's answer to the confirmation dialog. */
    method ResetCount(confirmed: bool)
      requires Valid()
      modifies this
      ensures Valid()
      ensures state == Apply(old(state), ResetPressed(confirmed)).state
      ensures !confirmed ==> state == old(state)
      ensures showCheckInModal == old(showCheckInModal)
    {
      if confirmed {
        state := DailyState.ResetCount(state);
        SyncRef();
      }
    }

    /** `toggleApp`; the permission request and audio resume are not modelled. */
    method ToggleApp()
      requires Valid()
      modifies this
      ensures Valid()
      ensures state == Apply(old(state), TogglePressed).state
      ensures showCheckInModal == old(showCheckInModal)
    {
      state := DailyState.ToggleApp(state);
      SyncRef();
    }

    /** `handleCheckIn`: one more glass and the modal closes. */
    method HandleCheckIn()
      requires Valid()
      modifies this
      ensures Valid()
      ensures state == Apply(old(state), CheckInPressed).state
      ensures state == DailyState.AddGlass(old(state))
      ensures !showCheckInModal
    {
      AddGlass();
      showCheckInModal := false;
    }

    /** The modal's "later" button: closes the modal and nothing else. */
    method DismissCheckIn()
      requires Valid()
      modifies this
      ensures Valid()
      ensures state == Apply(old(state), CheckInDismissed).state
      ensures !showCheckInModal
    {
      showCheckInModal := false;
    }

    /**
     * `triggerReminder`: the ref takes the hour at once, the modal opens and
     * the record notes the hour. Sound and system notification are not modelled.
     */
    method TriggerReminder(hour: Hour)
      modifies this
      ensures lastTriggeredHour == Some(hour) && Valid()
      ensures state == Trigger(old(state), hour)
      ensures showCheckInModal
    {
      lastTriggeredHour := Some(hour);
      showCheckInModal := true;
      state := Trigger(state, hour);
    }

    /**
     * One tick of the interval at local date `today`, `hour`:`minute`.
     * `fired` says whether a reminder was triggered.
     */
    method Tick(today: string, hour: Hour, minute: Minute) returns (fired: bool)
      requires Valid()
      modifies this
      ensures Valid()
      ensures state == Apply(old(state), Action.Tick(today, hour, minute)).state
      ensures fired == Apply(old(state), Action.Tick(today, hour, minute)).fired
      ensures showCheckInModal == (old(showCheckInModal) || fired)
    {
      var snapshot := state;
      var inPeriod := IsWithinReminderPeriod(hour);
      if snapshot.lastDate != today {
        lastTriggeredHour := None;
        state := Rollover(state, today);
      }
      fired := snapshot.isActive && inPeriod && minute == 0 && lastTriggeredHour != Some(hour);
      if fired {
        TriggerReminder(hour);
      }
      SyncRef();
    }
  }
}
