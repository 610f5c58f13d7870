# Drink-limit tracker: the cycle and lockout state machine

This project models the core of a drink-dispenser tracker (`app.py`). A hardware
controller reports cumulative counters and the lid and lock sensors; the server keeps
a single device record, a ledger of per-cycle consumption, and an in-memory
"reset pending" flag. The server:

- closes a cycle once its end time has passed;
- keeps a streak of cycles within the consumption limit;
- merges each report's consumption into the current cycle's ledger entry;
- locks the device when the lid is closed and the limit is reached, with a decaying
  lockout countdown;
- gates the dashboard's settings and reset commands behind a confirmation phrase;
- answers each hardware message with `lock`, `unlock`, `reset` or `none`.

Modules:

- `Wrappers` (wrappers.dfy): `Option`, `Max`, `Min`.
- `ConsumptionLog` (consumption_log.dfy): the ledger as a sequence of entries in
  insertion order. It has lookup by cycle start (first match), merge of a consumption
  increase, finalization at rollover, and the newest-first history query.
- `DeviceModel` (device_model.dfy): the device record and the server state as values.
  It has one function per handler: rollover, streak update, report ingestion (copy,
  lockout decay, ledger merge, lock policy), settings, reset, and per-message dispatch.
- `Streaks` (streaks.dfy): the streak counters over a history of cycle outcomes. They
  are compared with an independent definition: the run of good cycles at the end, and
  the longest run of good cycles.
- `DeviceProperties` (device_properties.dfy): lemmas about the handlers.
- `Traces` (traces.dfy): runs of hardware messages and dashboard commands in the
  order the server handles them. The invariant holds in every reachable state. The
  pending-reset signal is consumed exactly once: it is never lost and never delivered
  twice.
- `Tracker` (tracker.dfy): the server as it runs. `DeviceStatus` is a class whose
  fields the handlers assign. `DrinkTracker` holds the record, the ledger and the flag.
  Each method is proved to produce exactly the state (and answer) that its
  `DeviceModel` function gives, so the lemmas apply to the methods.

Time is a parameter `now` in whole seconds. The penalty multiplier is the ratio
`penaltyNum / penaltyDen`; its default 1.5 is 3/2. `DeviceModel.Inv` is the invariant
every handler keeps:

- `currentStreak <= highestStreak`;
- a positive lockout countdown has a lockout end time;
- at most one ledger entry per cycle start.

Points where the code does something other than what one might expect, followed here:

- `cycle_duration` is used as seconds everywhere (app.py:66, 95, 216), although its
  column comment says minutes. The default is 1440 seconds.
- A reset moves `cycle_start_time` to now but does not recompute `cycle_end_time`
  (app.py:110-114). So `cycle_end_time == cycle_start_time + cycle_duration` is not an
  invariant of the code, and it is not part of `Inv`.
- A new ledger entry's `limit_exceeded` compares the device's total
  `consumption_count` with the limit, not the entry's own count (app.py:156).
- Merging into an existing entry also overwrites that entry's `consumption_limit`
  (app.py:150). The entry that a rollover creates has no limit (app.py:206-211).
- The `unlock` branch of the lock policy clears nothing (app.py:177-179). By then the
  lockout decay has already cleared it: `UnlockClearsLockout` proves this.
- The history query returns the 30 entries with the latest cycle start. This includes
  the entry of the cycle still running (app.py:230).
- No lockout outlives its cycle. The penalty end is start + 1.5 × duration
  (app.py:169), but rollover at start + duration clears `lockout_end_time`
  (app.py:220-221) while start and duration are unchanged, so the last half of the
  penalty never takes effect. This follows from `DeviceProperties.RolloverEffect`.
- Settings take any integers, short of the date-range overflow listed under
  "## Left out". Nothing requires the limit or the duration to be positive
  (app.py:93-94). Rollover is idempotent at a fixed time only when the
  duration is positive.

## Model

| member | source | states |
|---|---|---|
| `ConsumptionLog.FindEntry` | app.py:145 | the index returned holds the key and no earlier entry does; no index is returned exactly when no entry has the key |
| `ConsumptionLog.MergeConsumption` | app.py:143-159 | the cycle's entry count grows by exactly the delta; an existing entry gets its flag recomputed from its new count and the current limit; a missing entry is appended with count = delta and the flag from the device total; other entries are unchanged; keys stay unique |
| `ConsumptionLog.FinalizeEntry` | app.py:199-212 | the cycle's entry ends with the given count and outcome; it is created without a limit when missing; other entries are unchanged; keys stay unique |
| `ConsumptionLog.SortNewestFirst` | app.py:230 | ordering by cycle start descending gives a permutation of the ledger (same length, same multiset) in non-increasing cycle-start order |
| `ConsumptionLog.History` | app.py:230 | at most 30 entries (all when there are fewer), newest first, a sub-multiset of the ledger, and no left-out entry is newer than a returned one |
| `DeviceModel.NewState` | app.py:54-68 | a newly created record starts its cycle at now and ends it at now + 1440 s; limit 2, multiplier 3/2; all counters, streaks and the countdown are 0; lock and lid open, no lockout end; empty ledger, no reset pending; the invariant holds |
| `DeviceModel.UpdateStreak` | app.py:182-188 | an exceeded cycle zeroes the current streak and keeps the highest; otherwise the current streak goes up by one and the highest becomes the max of the two; `highest >= current` is preserved; nothing else changes |
| `DeviceModel.CheckAndResetCycle` | app.py:192-225 | before the cycle end the state is unchanged; at or after it the new cycle starts at now with consumption, countdown and lockout end cleared, and a reset is pending; with a positive duration the cycle is no longer expired; the invariant is kept (full effect in `DeviceProperties.RolloverEffect`) |
| `DeviceModel.CopyReport` | app.py:124-128 | the five hardware fields take the report's values and no other field changes |
| `DeviceModel.DecayLockout` | app.py:131-138 | only the countdown and lockout end change; afterwards the countdown is max(0, end - now) for the recorded end (0 without one), it is 0 exactly when no end is recorded, and a kept end is the old one (full effect in `DeviceProperties.DecayEffect`) |
| `DeviceModel.PenaltyLockoutEnd` | app.py:169 | with a non-negative duration and a multiplier of at least 1, the penalty end is no earlier than cycle start + duration, and so no earlier than the cycle end whenever that end is at most start + duration (it can be later after a reset moves the start back); with a non-negative multiplier the penalty end is no earlier than the cycle start |
| `DeviceModel.LockPolicy` | app.py:165-179 | the answer is lock or unlock; an open lid changes nothing; a recorded end is never moved; a countdown derived from the end stays derived; unlock changes nothing and happens only with a zero countdown (full effect in `DeviceProperties.IngestLockPolicy`) |
| `DeviceModel.IngestReport` | app.py:121-179 | the answer is lock or unlock; the countdown equals the one derived from the recorded end; the pending flag is untouched; without a consumption increase the ledger is unchanged; the invariant is kept (ledger effect in `DeviceProperties.IngestMergesLog`) |
| `DeviceModel.UpdateSettings` | app.py:88-99 | succeeds exactly with the confirmation phrase; a wrong phrase fails with the error text and changes nothing; success sets limit, duration and the cycle end to start + duration; the invariant is kept (full effect in `DeviceProperties.SettingsGate`) |
| `DeviceModel.ResetDevice` | app.py:104-118 | succeeds exactly with the confirmation phrase; a wrong phrase fails with the error text and changes nothing; success zeroes consumption, clears the lockout end, starts the cycle at now and raises the pending flag; the invariant is kept (full effect in `DeviceProperties.ResetGate`) |
| `DeviceModel.Dispatch` | app.py:277-286 | the answer is reset exactly when a reset was pending or the cycle rolled over, none exactly when neither holds and the message is not a report; no reset is pending afterwards; the invariant is kept |
| `DeviceModel.ConsumptionHistory` | app.py:228-246 | the history has min(30, ledger size) entries, newest first, drawn from the ledger, and no left-out entry is newer than a returned one (the 30 newest); streaks and limit are the record's |
| `Streaks.TrailingGood` | app.py:182-188 | reference count of good cycles at the end of an outcome history: a good run reaching the end, preceded by an exceeded cycle or nothing |
| `Streaks.StreaksBoundRuns` | app.py:182-188 | from a fresh record, after any outcome history, the current streak equals the trailing good run and no good run is longer than the highest streak |
| `Streaks.HighestStreakAttained` | app.py:182-188 | from a fresh record, the highest streak is the length of some run of good cycles |
| `Streaks.StreakExample` | app.py:182-188 | outcomes exceeded, ok, ok, exceeded, ok give current streak 1 and highest 2 |
| `DeviceProperties.RolloverEffect` | app.py:195-225 | before the cycle end nothing changes; at or after it the new cycle starts at now, ends at now + duration, counters, lock and lockout are cleared, settings, inventory and lid are kept, and a reset is pending |
| `DeviceProperties.RolloverUpdatesStreak` | app.py:196-197 | rollover updates the streak with "count > limit" as the closed cycle's outcome |
| `DeviceProperties.RolloverFinalizesLog` | app.py:199-212 | after rollover exactly one entry is keyed by the old cycle start, with count = consumption count and flag = count > limit; other entries are unchanged |
| `DeviceProperties.RolloverIdempotent` | app.py:195-216 | with a positive cycle duration, a second rollover at the same time changes nothing |
| `DeviceProperties.RolloverKeepsInv` | app.py:192-225 | rollover preserves the invariant |
| `DeviceProperties.IngestCopiesReport` | app.py:123-128 | the report's counters and sensors are copied verbatim; streaks, cycle times, settings and the pending flag are untouched |
| `DeviceProperties.DecayEffect` | app.py:131-138 | a running countdown becomes max(0, end - now) and its end is cleared when it reaches 0; otherwise both are cleared; the result is never negative and equals the countdown derived from the recorded end |
| `DeviceProperties.DecayMonotone` | app.py:131-138 | decays at later times never raise the countdown; once the end has passed it is 0 with no end recorded |
| `DeviceProperties.IngestDerivesRemaining` | app.py:131-173 | right after a report the countdown equals max(0, end - now) for the recorded end, or 0 without one |
| `DeviceProperties.IngestMergesLog` | app.py:142-159 | the ledger is unchanged unless consumption increased; then the cycle's entry grows by exactly the delta (created with count = delta when missing), and keys stay unique |
| `DeviceProperties.IngestLockPolicy` | app.py:164-179 | lid closed and count >= limit answers lock; the recorded end is kept, else set to start + duration * multiplier when over the limit, else to the cycle end; the countdown is max(0, end - now); otherwise the answer is lock exactly when the countdown is >= 1, else unlock |
| `DeviceProperties.LidOpenNeverStartsLockout` | app.py:165-179 | a report with the lid open never records a new lockout end |
| `DeviceProperties.UnlockClearsLockout` | app.py:131-179 | answering unlock leaves no lockout end and a zero countdown |
| `DeviceProperties.LockoutEndStable` | app.py:167-171 | a lockout whose end is still in the future is never re-targeted by a later report |
| `DeviceProperties.PenaltyExample` | app.py:166-173 | 3600 s cycles with multiplier 1.5, one drink over with the lid closed: lock until start + 5400 s, kept by a later report in the same cycle |
| `DeviceProperties.AtLimitLocksUntilCycleEnd` | app.py:165-175 | reaching the limit exactly with the lid closed locks until the cycle end |
| `DeviceProperties.MergeExample` | app.py:143-159 | two reports consuming 1 and then 2 drinks leave one new entry counting 3, flagged against the current limit |
| `DeviceProperties.IngestKeepsInv` | app.py:121-179 | report ingestion preserves the invariant |
| `DeviceProperties.SettingsGate` | app.py:88-99 | a wrong phrase changes nothing and fails; the right one sets limit and duration, sets the cycle end to start + duration, and changes nothing else |
| `DeviceProperties.ResetGate` | app.py:105-118 | a wrong phrase changes nothing and fails; the right one zeroes consumption, clears lock and lockout, sets the start to now and raises the pending flag; streaks, added count, cycle end, settings and ledger are untouched |
| `DeviceProperties.CommandsKeepInv` | app.py:88-118 | both dashboard commands preserve the invariant |
| `DeviceProperties.DispatchDeliversResetOnce` | app.py:277-286 | the answer is reset exactly when a reset was pending or the cycle rolled over; the report is then not ingested, and after any message no reset is pending |
| `DeviceProperties.DispatchNormal` | app.py:277-286 | with no reset owed and before the cycle end, a report is ingested and answered lock or unlock; any other message is answered none with no change |
| `DeviceProperties.DispatchKeepsInv` | app.py:277-286 | message handling preserves the invariant |
| `DeviceProperties.ResetThenReports` | app.py:104-286 | a reset command followed by a report yields reset; a later report, still before the unchanged cycle end, yields lock or unlock |
| `DeviceProperties.HistoryAnswer` | app.py:228-246 | the history answer has the newest-first ledger properties plus the record's streaks and current limit |
| `Traces.Apply` | app.py:277-286 | handling one event keeps the invariant; hardware messages and only they get an answer |
| `Traces.Run` | app.py:272-286 | the invariant holds after any sequence of messages and commands, with one answer slot per event |
| `Traces.PendingIffOwed` | app.py:280-283 | after any run, a reset is pending exactly when an accepted reset command came after the last hardware message (or one was pending and no message came) |
| `Traces.ResetAnswers` | app.py:277-286 | in any run, a hardware message is answered reset exactly when a reset is owed to it or its own rollover closes the cycle |
| `Traces.ResetDeliveredToNextMessage` | app.py:280-283 | never lost: the first hardware message after an accepted reset command is answered reset |
| `Traces.ResetNotRepeated` | app.py:280-283 | never twice: of two consecutive hardware messages with no accepted reset between them, the second is answered reset only if its own rollover closes the cycle |
| `Tracker.DeviceStatus.constructor` | app.py:22-38 | the record starts with the column defaults and a cycle from now to now + 1440 seconds |
| `Tracker.DeviceStatus.UpdateStreak` | app.py:182-189 | the record's fields become `DeviceModel.UpdateStreak` of the old ones |
| `Tracker.DeviceStatus.StartNewCycle` | app.py:215-221 | the new cycle's start, end, counters, lock and lockout are assigned; nothing else changes |
| `Tracker.DeviceStatus.CopyReport` | app.py:124-128 | the five hardware fields are assigned from the report; nothing else changes |
| `Tracker.DeviceStatus.DecayLockout` | app.py:131-138 | the record becomes `DeviceModel.DecayLockout` of the old one |
| `Tracker.DeviceStatus.ApplyLockPolicy` | app.py:165-179 | the record and answer are those of `DeviceModel.LockPolicy` |
| `Tracker.DeviceStatus.ApplySettings` | app.py:93-95 | limit, duration and cycle end are assigned; nothing else changes |
| `Tracker.DeviceStatus.ClearForReset` | app.py:110-114 | consumption, lock, lockout and cycle start are reset; nothing else changes |
| `Tracker.DrinkTracker.constructor` | app.py:54-68 | the state is `DeviceModel.NewState(now)` and satisfies the invariant |
| `Tracker.DrinkTracker.CheckAndResetCycle` | app.py:192-225 | the state becomes `DeviceModel.CheckAndResetCycle` of the old state; the invariant is kept |
| `Tracker.DrinkTracker.MergeIncrease` | app.py:143-159 | the ledger becomes `ConsumptionLog.MergeConsumption` of the old ledger for the current cycle; the record and the pending flag are untouched |
| `Tracker.DrinkTracker.HandleStatusUpdate` | app.py:121-179 | the state and answer are `DeviceModel.IngestReport` of the old state; the invariant is kept |
| `Tracker.DrinkTracker.UpdateSettings` | app.py:88-99 | the state and reply are `DeviceModel.UpdateSettings` of the old state |
| `Tracker.DrinkTracker.ResetDevice` | app.py:104-118 | the state and reply are `DeviceModel.ResetDevice` of the old state |
| `Tracker.DrinkTracker.Step` | app.py:277-286 | the state and answer are `DeviceModel.Dispatch` of the old state; the invariant is kept |

## Left out

- Transport: Flask routes, SocketIO emits and broadcasts, the websocket server loop and
  JSON encoding (app.py:71-84, 162, 268-326). Only the decision for one message is kept.
- Persistence: the SQLAlchemy session, commits and queries. The record is an object,
  the ledger a sequence in insertion order, and a filtered `first()` is the first
  matching entry.
- The ledger's `id` and `timestamp` columns. No logic reads them.
- Lazy creation: `get_or_create_device_status` is modelled as creating the record when
  the tracker is constructed. Every later call returns that same record.
- The wall clock: it is the parameter `now`, in whole seconds. Sub-second parts of
  timestamps are not modelled.
- The floating-point penalty multiplier: it is the ratio `penaltyNum / penaltyDen`.
  The penalty lockout end is rounded down to a whole second. This does not change any
  countdown, because the countdown is `max(0, int(end - now))` with whole-second `now`.
- Concurrency on the shared `reset_pending` flag: the flag is a plain field, and the
  handlers run one after the other.
- Display formatting: the UTC+8 and ISO strings of the status broadcast, its
  `lockout_timer` echo of `lockout_remaining`, and the ISO formatting of the history
  rows (app.py:232-238, 249-265).
- The `lockout_timer` column, which no logic uses (app.py:31), and the assignment to
  the non-column `last_updated` (app.py:140).
- Exception paths: the `ValueError` of non-numeric settings (app.py:100-101), a
  `KeyError` for a missing confirmation key, and a `KeyError` for a hardware message
  that has `totalRemCount` but lacks another field. Inputs are already-parsed values,
  and a message either is a full report or has no `totalRemCount`.
- Range limits of the stored values. Times and durations are unbounded integers in the
  model. In the code, `datetime` stops at year 9999, so a cycle end, a penalty end or a
  rollover's new end beyond it raises `OverflowError` (app.py:95, 169, 216). The
  settings handler catches only `ValueError` (app.py:100), so it gives no reply and
  commits nothing. The report handler raises after its commit at app.py:161, and the
  websocket loop catches only `ConnectionClosed` (app.py:292), so the connection is
  dropped. The model instead answers `Success` or `Lock` with the computed time. The
  counters and settings are SQLite 64-bit INTEGER columns, and values outside that
  range are not modelled either.
- The `TypeError` the decay would raise with a positive countdown and no end time.
  The decay, ingestion and dispatch functions require `LockoutConsistent`, which every
  handler preserves.
- The dashboard script (static/script.js), which only renders, and the obsolete Alembic
  migration.
