# Hydration reminder: the scheduling and daily-state core

This project models the decision logic of a hydration-reminder widget.
The widget counts the glasses of water logged today. While it is switched
on, it reminds the user once at the top of each hour from 09:00 to 18:00
inclusive. At the first tick of a new day it starts a fresh count. It also
shows a countdown to the next reminder.

- `ReminderTime` (`reminder_time.dfy`) models `utils/time.ts`: the window
  bounds, the window test, the projection of the next reminder time, and
  the `HH:MM:SS` countdown formatting. These are pure functions. The local
  clock reading is passed in as a parameter.
- `DailyState` (`daily_state.dfy`) models the `AppState` record of
  `types.ts` and the `setState(prev => ...)` updaters of `App.tsx` as pure
  functions. It also holds the start-up load, one whole tick as a pure
  step, and lemmas over arbitrary sequences of ticks and button presses.
- `App` (`app.dfy`) models the component as the class `Component`. It holds
  the record, the `lastTriggeredHourRef` ref and the check-in modal flag.
  Each button handler is a method, and a one-second tick is
  `Tick(today, hour, minute)`. The handlers and the tick are proved to
  change the record exactly as `DailyState.Apply` says, and
  `TriggerReminder` as `DailyState.Trigger` says. Every method leaves the
  ref equal to `state.lastReminderHour`.

Some behaviour of the code is easy to misread:

- The count is clamped at 24 (`App.tsx:154`). 8 is the number of glass
  icons drawn (`App.tsx:170`) and the daily goal printed in the header
  (`App.tsx:221`). It is not a bound on the count.
- Both ends of the window are inclusive (`utils/time.ts:12`).
- A reminder fires only during minute 0 of an hour (`App.tsx:131`). A change
  of hour alone does not fire it.
- During hour 18 the next reminder is projected for 09:00 the next day
  (`utils/time.ts:25`), whether or not the 18:00 reminder fired: the 18:00
  slot is no longer strictly in the future (`NextReminderIsEarliestSlot`).
- There is no remote store, fetch, upsert or debounced write-back in the
  code. `netlify/functions/sync.ts` only answers 410. None of that is
  modelled.

## Model

| member | source | states |
|---|---|---|
| ReminderTime.IsWithinReminderPeriod | utils/time.ts:9-13 | the window test holds exactly for hours 9 through 18; both ends are inclusive |
| ReminderTime.NextReminderTime | utils/time.ts:15-35 | before 9: today 09:00:00.000. At 18 or later: tomorrow 09:00:00.000. Otherwise: the top of the next hour today, whose hour is in 10..18. Every result is strictly later than now and is the top of an in-window hour |
| ReminderTime.NextReminderIsEarliestSlot | utils/time.ts:15-35 | no in-window top of the hour, today or on any later day, lies strictly after now and before the projected time |
| ReminderTime.CountdownMs | App.tsx:168-169 | the countdown to the projected reminder is positive and at most 15 hours |
| ReminderTime.SplitSeconds | utils/time.ts:48-51 | hours·3600 + minutes·60 + seconds equals the total, with minutes and seconds in 0..59 |
| ReminderTime.DecimalString | utils/time.ts:53 | `toString` of a non-negative integer is a digit string denoting that number, with no leading zero. It has one digit below 10 and two digits from 10 to 99 |
| ReminderTime.PadStart2 | utils/time.ts:53 | `padStart(2, '0')` leaves a string of two or more characters alone and puts '0' in front of a one-character string |
| ReminderTime.PaddedField | utils/time.ts:53 | a minutes or seconds field is exactly two digits that read back as its value |
| ReminderTime.FormatCountdownRoundTrip | utils/time.ts:46-54 | the countdown text reads back as the whole seconds in `ms` (as zero when `ms` is negative) |
| ReminderTime.FormatCountdownLength | utils/time.ts:53 | below 100 hours the text is eight characters with ':' at positions 2 and 5 |
| ReminderTime.FormatCountdownUnderOneSecond | utils/time.ts:46-51 | any `ms` below 1000, negative values included, gives "00:00:00" |
| ReminderTime.FormatCountdownExample | utils/time.ts:46-54 | 3661000 ms gives "01:01:01" |
| ReminderTime.CountdownDisplay | App.tsx:168-169 | the displayed countdown is always eight characters, reads back as the countdown's whole seconds, and shows at most 15 hours |
| DailyState.Load | App.tsx:12-29 | a parsed cached record is adopted exactly when its date is today. Otherwise, including a missing or unparsable entry, the day starts with count 0, reminders off and no hour fired. The result always belongs to today |
| DailyState.LoadCountInRange | App.tsx:12-29 | start-up meets the count invariant whenever the record it adopts, if any, is in range; a stale cached record, which is discarded, may hold any count |
| DailyState.AddGlass | App.tsx:153-155 | the count goes up by one below 24 and stays at 24 from there on. No other field changes |
| DailyState.ResetCount | App.tsx:157-161 | the count becomes exactly 0. The other three fields are unchanged |
| DailyState.ToggleApp | App.tsx:150 | `isActive` flips. Count, last reminder hour and date are unchanged |
| DailyState.ToggleTwice | App.tsx:150 | toggling twice restores the record |
| DailyState.Rollover | App.tsx:114-123 | a new day resets the count to 0 and the last reminder hour to none, takes today's date, and keeps `isActive` |
| DailyState.Trigger | App.tsx:99-102 | firing records the hour. Count, `isActive` and date are unchanged |
| DailyState.TickStep | App.tsx:107-136 | a tick rolls over first. It then fires exactly when reminders are on, the hour is in 9..18, the minute is 0, and this hour has not fired today (any hour counts as not fired on a new day). The new record is stated field by field |
| DailyState.Glasses | App.tsx:170 | the glass row always has 8 entries |
| DailyState.GlassesShowCount | App.tsx:170 | entry i is full exactly when i < count, so the row shows the count clipped to 0..8 |
| DailyState.RunKeepsCountInRange | App.tsx:153-161 | from a count in 0..24, the count stays within 0..24 over any sequence of ticks and button presses |
| DailyState.CountOnlyDropsOnResetOrNewDay | App.tsx:153-161 | from a count in 0..24, within one day and without a confirmed reset, the count stays the same or goes up by one, and it goes up only for "+" or a check-in |
| DailyState.FiresAtMostOncePerHour | App.tsx:128-135 | over any sequence whose ticks read one date and one hour, at most one reminder fires. None fires if that hour already fired on that date |
| DailyState.FiresAtLeastOnceAtTopOfHour | App.tsx:128-135 | with reminders on, no toggle and an in-window hour not yet fired, a minute-0 tick in the sequence makes a reminder fire |
| DailyState.FiresExactlyOnceInHour | App.tsx:107-136 | ticks through one in-window hour, minute 0 included, with reminders on, no toggle, and the hour not yet fired that day, fire exactly one reminder |
| DailyState.ReloadDoesNotRefire | App.tsx:39 | after a reload in an hour that already fired, the ref seeded from the cached record blocks a second fire |
| App.Component.constructor | App.tsx:12-39 | the record is the loaded one, the ref equals its last reminder hour, and the modal is closed |
| App.Component.SyncRef | App.tsx:42-45 | after the effect the ref equals `state.lastReminderHour` |
| App.Component.AddGlass | App.tsx:153-155 | the record becomes `AddGlass` of the old record. The ref stays in step and the modal is untouched |
| App.Component.ResetCount | App.tsx:157-161 | when confirmed, the record is reset as `ResetCount` says. When not confirmed, nothing changes |
| App.Component.ToggleApp | App.tsx:141-151 | the record becomes `ToggleApp` of the old record. The ref stays in step |
| App.Component.HandleCheckIn | App.tsx:163-166 | the same change to the record as `AddGlass`, and the modal is closed |
| App.Component.DismissCheckIn | App.tsx:298 | the modal closes and the record is unchanged |
| App.Component.TriggerReminder | App.tsx:87-103 | the ref and the record's last reminder hour both become the hour, the modal opens, and the count is unchanged |
| App.Component.Tick | App.tsx:107-136 | the new record and the fired flag are those of `TickStep` on the old record. The rollover clears the ref before the fire check reads it. The modal opens exactly when a reminder fires |

## Left out

- Rendering: the JSX of `App.tsx` (lines 172-311) and `components/WaterGlass.tsx`. This is presentation only.
- `playNotificationSound`, the `Notification` API and `requestPermission`. These are audio output and a platform permission, and they do not affect the record.
- The local cache. The `localStorage` read and write and `JSON.parse` are I/O. The cache reaches the model as an already-parsed `Cache` value, and the write in the effect is not modelled.
- `getTodayStr` and `formatTime`. They are locale formatting. The date is an opaque string input, and the clock reading is an explicit parameter.
- Timer plumbing. This covers `setInterval`/`useEffect` scheduling, re-registration, stale closures and React's deferred batching of updaters. A tick is one method call. It applies its updaters in order and then runs the ref-sync effect.
- The `currentTime` and `isReminderPeriod` component state. These are display only. So is the rule that the countdown is shown only while reminders are on and in the window.
- `ReminderStatus` in `types.ts`. The code never uses it.
- The remote store, debounced write-back and connectivity status. None of them exist in the code. `netlify/functions/sync.ts` is a constant 410 response.
- DailyState.Load: the cached record is adopted without validation, as in the code. A count outside 0..24 or a non-integer field is not rejected. Counts are unbounded integers, and JavaScript's non-integer numbers are not modelled.
- ReminderTime.FormatCountdown: `ms` is an integer. Fractional, NaN and infinite inputs are not modelled, and neither is the exponent form that `toString` uses for very large numbers.
- ReminderTime.NextReminderTime: the result is a day offset and a clock time. Calendar arithmetic and daylight-saving shifts inside `Date` are not modelled.
- ReminderTime.CountdownMs: "now" and the projection use the same clock reading. In the code, `currentTime` comes from the last tick and the projection reads the clock at render time.
