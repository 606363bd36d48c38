# BeeTime work-log manager, modelled in Dafny

BeeTime keeps one record per calendar date. Each record holds the work
location, the required time, the day's work sessions, its inactive periods
and a summary. `WorkLogManager` (core/work_log_manager.py) does four things:

- it creates today's entry;
- it appends and closes sessions;
- it records idle and active transitions;
- it recomputes the summary: tracked and inactive minutes, reported time,
  overtime, missing time and whether the target is met.

All times are `HH:MM` texts, and all arithmetic is in whole minutes.

The project has five files.

- `timetext.dfy` (modules `Wrappers`, `TimeText`) covers the two time-text conversions.
  - `MinutesToHhmm` is the `f"{m // 60:02}:{m % 60:02}"` writer, for every integer.
  - `HhmmToMinutes` is the `split(":")` plus `int()` reader. Python's `int()` is modelled as written: surrounding whitespace, a sign, and digits with single underscores. Anything else is a ValueError, modelled as `None`.
  - `StrptimeHM` is `datetime.strptime(t, "%H:%M")`. It takes one or two digits for the hour (0-23) and for the minute (0-59), and the whole text must match.
  - `ClockText` stands for `datetime.now().strftime("%H:%M")`.
- `records.dfy` (module `Records`) holds the day record as datatypes. It also has the entry `_ensure_today_entry` creates.
- `timeline.dfy` (module `Timeline`) has each record operation as a function from one day record to the next: add a session, end the last session, add an inactive period, go idle, come back. It also has the queries `has_session` and `get_today_value`.
- `summary.dfy` (module `SummaryEngine`) is `calculate_summary`.
  - There is a reference definition of each loop: `TrackedMinutes`, `LastSessionEnd` and `InactiveFold`.
  - Each loop is also a method, `SumTracked` and `SumInactive`, proved equal to its reference definition.
  - The arithmetic is `ComputeTotals`, the summary update is `ApplyTotals`, and `TargetCheck` is `check_target_met`.
- `manager.dfy` (module `Manager`) has the class `WorkLogManager`.
  - `data` is the log keyed by date.
  - `stored` is the log as the last `_save` wrote it.
  - Each state-changing method is proved to leave exactly what the matching `Timeline` or `SummaryEngine` function says, and to save (or not) as the source does.
  - `IdleScenario` runs the idle-at-12:00, back-at-12:10 walk-through against the class.

The inactive-period loop is modelled as the code behaves. Its loop variable
`end` carries over from one iteration to the next, and from the session loop
before it. So a period whose `end_time` is null or `""` is measured up to
whatever `end` was left behind. If `end` was never assigned, the model gives
`Err(UnboundEnd)` (Python's UnboundLocalError). A period with no `end_time`
key gives `Err(MissingEndTime)` (KeyError). Neither exception is caught
(only ValueError is), so `CalculateSummary` then leaves the log unchanged and
unsaved. A ValueError from `_hhmm_to_minutes` on the manual adjustments or
the required time also propagates: `BadManualAdjustments` and `BadRequiredTime`.

Where the design description and the code disagree, the model follows the code.

- The description says an open inactive period is skipped, and a period without an `end_time` key is caught and skipped. The code reuses the carried `end` or raises, as above.
- The description says every operation ensures today's entry first. The code does that only in `__init__` (core/work_log_manager.py:14).
- The description says at most one session is open at a time. `add_session` does not enforce this (`Timeline.AddSessionCanLeaveTwoOpen`). The invariant holds only along idle/active sequences that start with at most the last session open (`Timeline.IdleClosesAll`, `Timeline.ActiveOpensOnlyLast`).
- The description calls every parse failure in the summary non-fatal. The manual-adjustment and required-time parses are outside the `try` blocks.

## Model

| member | source | states |
|---|---|---|
| TimeText.MinutesRoundTrip | core/work_log_manager.py:84-89 | for every integer m, `_hhmm_to_minutes(_minutes_to_hhmm(m))` gives back exactly m |
| TimeText.HhmmShape | core/work_log_manager.py:84-85 | for m >= 0 the text is hours, a colon, then minutes; hours are all digits and at least two of them, minutes are exactly two digits |
| TimeText.ParseFormat02 | core/work_log_manager.py:85-88 | Python's `int()` reads every `:02`-formatted field back to its number, negative numbers included |
| TimeText.SplitAtSep | core/work_log_manager.py:88 | a text `a:b` with no colon in `a` or `b` splits into exactly the two parts `a` and `b` |
| TimeText.ZeroReadsBack | core/work_log_manager.py:121 | the default `"00:00"` is what the writer produces for 0, and it reads back as 0 |
| TimeText.StrptimeHM | core/work_log_manager.py:99 | a text `%H:%M` accepts names a minute of the day, 0 to 1439 |
| TimeText.StrptimeAgreesWithReader | core/work_log_manager.py:99-101 | every text the summary's strptime accepts, `_hhmm_to_minutes` also accepts, with the same minute value |
| TimeText.ClockTextParses | core/work_log_manager.py:103-104 | the clock's `%H:%M` text parses back to the minute it came from |
| TimeText.ClockTextIsHhmm | core/work_log_manager.py:152 | within a day, the clock text `handle_idle` / `handle_active` write equals `_minutes_to_hhmm` of the same minute |
| TimeText.Format02IsTwoDigits | core/work_log_manager.py:85 | below 100, the `:02` field is the same two digits strftime writes |
| Records.NoteIf | core/work_log_manager.py:67-68 | the stored note is present exactly when the given note is truthy, and then equals it |
| Records.EnsureToday | core/work_log_manager.py:26-42 | afterwards today is a key; the keys are the old keys plus today; every existing entry is untouched; a missing today becomes the default entry |
| Records.EnsureTodayIdempotent | core/work_log_manager.py:26-27 | ensuring today's entry twice is the same as once |
| Records.NewDayDefaults | core/work_log_manager.py:28-42 | a new day has no sessions, no periods and no location; missing_time equals required_time; every other minute field is `"00:00"`; met_target is false |
| Timeline.DuplicateStartIsNoOp | core/work_log_manager.py:55-58 | a start whose start time and source already appear on a start session leaves the day unchanged |
| Timeline.AddSessionAppends | core/work_log_manager.py:60-73 | otherwise exactly one session with the given fields is appended; earlier sessions are kept; the note is present iff truthy; the location is overwritten iff the given one is truthy; nothing else changes |
| Timeline.AddStartTwice | core/work_log_manager.py:55-70 | adding the same start twice gives the same day as adding it once |
| Timeline.AddedSessionIsFound | core/work_log_manager.py:167-168 | after `add_session` of a type, `has_session` of that type holds |
| Timeline.LastOpenIsLast | core/work_log_manager.py:142-143 | the reverse scan finds nothing iff no session has a missing, null, `""` or `"null"` end; otherwise the found session is open and every later one is closed |
| Timeline.LastOpenAt | core/work_log_manager.py:142-147 | an open session with only closed sessions after it is the one the reverse scan stops at |
| Timeline.EndLastSessionEffect | core/work_log_manager.py:140-148 | the most recent open session gets the end time, and its type only when a truthy type is given; its other fields, every other session and the length stay; with no open session the day is unchanged |
| Timeline.EndLastSessionClosesAll | core/work_log_manager.py:140-147 | when at most the last session is open and the end text is neither `""` nor `"null"`, no session is open afterwards |
| Timeline.ClockTextCloses | core/work_log_manager.py:152-153 | the clock text never counts as an open end |
| Timeline.HandleIdleEffect | core/work_log_manager.py:150-154 | idling closes the open session at now and appends the period {now, null, reason}; nothing else changes |
| Timeline.HandleActiveEffect | core/work_log_manager.py:156-162 | coming back overwrites the end of the last inactive period with now, even one already closed; it keeps the others and appends the `"activity"` session from `"auto"` noted `"back from break"` |
| Timeline.IdleThenActive | core/work_log_manager.py:150-162 | idle then active closes the open session, adds one period closed from idle time to return time, and adds one open session |
| Timeline.IdleClosesAll | core/work_log_manager.py:150-154 | going idle at a clock time leaves no session open when at most the last one was |
| Timeline.ActiveOpensOnlyLast | core/work_log_manager.py:156-162 | coming back with no session open leaves only the new, last session open |
| Timeline.AddSessionCanLeaveTwoOpen | core/work_log_manager.py:52-75 | two plain `add_session` calls can leave two open sessions, so "at most one open" is not an invariant of the record operations |
| Timeline.FirstStartTimeIsFirst | core/work_log_manager.py:177-178 | `get_today_value("start_time")` finds nothing iff no session is a start; otherwise it is the start time of the earliest start session |
| Timeline.HasStartIffStartTime | core/work_log_manager.py:167-178 | `has_session("start")` holds exactly when `get_today_value("start_time")` finds a text |
| Timeline.RequiredTimeReadsBack | core/work_log_manager.py:176-182 | `get_today_value("required_time", True)` on a new day gives back the configured minutes |
| SummaryEngine.Clamped | core/work_log_manager.py:106 | `max(0, end - start)`: non-negative, at least the difference, and equal to either 0 or the difference |
| SummaryEngine.Max0 | core/work_log_manager.py:124-125 | `max(0, x)`: non-negative, at least x, and equal to either 0 or x |
| SummaryEngine.SumTracked | core/work_log_manager.py:96-108 | the session loop yields total_tracked as the sum over parseable sessions of their clamped durations, ending at the clock when end_time is falsy; it also yields the `end` left behind |
| SummaryEngine.SumInactive | core/work_log_manager.py:110-119 | the inactive loop yields total_inactive and the final `end`, or the first uncaught error, exactly as the reference fold defines them |
| SummaryEngine.FoldStep | core/work_log_manager.py:111-117 | one more period extends the inactive loop by exactly that period's step, from the `end` the earlier periods left |
| SummaryEngine.TrackedAppend | core/work_log_manager.py:96-106 | total_tracked over two lists appended is the sum of their totals |
| SummaryEngine.TrackedBounds | core/work_log_manager.py:96-106 | each session contributes less than a day's minutes |
| SummaryEngine.LastSessionEndUnbound | core/work_log_manager.py:97-104 | the `end` after the session loop is unbound exactly when no session parses |
| SummaryEngine.LastSessionEndAt | core/work_log_manager.py:97-104 | when session i parses and no later one does, the `end` after the session loop is session i's end |
| SummaryEngine.FoldErrorStays | core/work_log_manager.py:110-119 | once a prefix of the periods raises, the whole loop raises the same error |
| SummaryEngine.ClosedPeriodsSum | core/work_log_manager.py:113-117 | when every period has a non-empty end text, the loop never raises; its total is the sum of clamped closed durations, whatever `end` was carried in |
| SummaryEngine.OpenPeriodReusesEnd | core/work_log_manager.py:114-116 | an open period (null or `""` end) is measured up to the carried `end`; with none carried, the summary raises |
| SummaryEngine.MissingKeyRaises | core/work_log_manager.py:114 | a period with no end_time key raises once reached, whatever `end` holds |
| SummaryEngine.SummaryArithmetic | core/work_log_manager.py:121-127 | reported = tracked + manual; overtime and missing are the clamped differences; at most one is positive; overtime - missing = reported - required; met_target iff reported >= required iff nothing is missing |
| SummaryEngine.SummaryReadsBack | core/work_log_manager.py:129-136 | every stored summary text reads back to the computed minutes; manual_adjustments, the sessions, the periods, the location and the required time are untouched |
| SummaryEngine.SummaryIdempotent | core/work_log_manager.py:91-136 | recomputing at the same clock minute gives the same totals, and applying them again changes nothing |
| SummaryEngine.TargetCheckReads | core/work_log_manager.py:170-174 | `check_target_met` returns (reported >= required, max(0, required - reported)) of the two texts it reads |
| SummaryEngine.TargetAfterSummary | core/work_log_manager.py:170-174 | after a recomputation, `check_target_met` answers exactly (met_target, missing minutes) |
| SummaryEngine.TargetRemaining | core/work_log_manager.py:173-174 | no remaining minutes exactly when the target is met, and reported plus remaining reaches the target |
| SummaryEngine.NewDayTarget | core/work_log_manager.py:26-42 | a fresh day owes its whole target and meets it only when the target is 0 |
| SummaryEngine.TrackedAfterActive | core/work_log_manager.py:156-162 | coming back at minute t adds exactly the new session's provisional minutes, max(0, now - t), to total_tracked |
| SummaryEngine.ScenarioTexts | core/work_log_manager.py:84-85 | 528, 48 and 18 minutes are written as `08:48`, `00:48` and `00:18` |
| SummaryEngine.EightHourDay | core/work_log_manager.py:91-127 | 09:00-17:00 against an 08:48 target: 480 tracked, 480 reported, 48 missing, no overtime, target not met |
| SummaryEngine.EightHourDayWithActivity | core/work_log_manager.py:91-127 | the same day with a 17:15-17:45 activity session: 510 tracked and reported, 18 missing |
| SummaryEngine.IdleBeforeAnySession | core/work_log_manager.py:110-116 | an idle period with no session before it makes the summary raise (unbound `end`) |
| SummaryEngine.IdlePeriodAfterSession | core/work_log_manager.py:110-117 | an idle period opened at 12:00 after a session closed at 12:00 counts 0 minutes and leaves `end` at 12:00 |
| Manager.WorkLogManager.constructor | core/work_log_manager.py:9-14 | the log starts as what was loaded; required_time is the formatted configured minutes; today's entry is ensured in memory and not saved |
| Manager.WorkLogManager.EnsureTodayEntry | core/work_log_manager.py:26-42 | the log becomes `EnsureToday` of the old log, and nothing is saved |
| Manager.WorkLogManager.UpdateManualAdjustments | core/work_log_manager.py:44-50 | `update_field` on today's summary.manual_adjustments sets that one field and saves |
| Manager.WorkLogManager.AddSession | core/work_log_manager.py:52-75 | today's entry becomes `AddSessionTo` of the old one, other dates are untouched, and the log is saved unless the start was a duplicate |
| Manager.WorkLogManager.AddInactivePeriod | core/work_log_manager.py:77-82 | today's entry gains the period at the end, and the log is saved |
| Manager.WorkLogManager.EndLastSession | core/work_log_manager.py:140-148 | the reverse loop with break leaves today's entry equal to `EndLastSessionIn` of the old one and saves either way |
| Manager.WorkLogManager.HandleIdle | core/work_log_manager.py:150-154 | today's entry becomes `HandleIdleOn` at the clock text, and the log is saved |
| Manager.WorkLogManager.HandleActive | core/work_log_manager.py:156-162 | today's entry becomes `HandleActiveOn` at the clock text, and the log is saved |
| Manager.WorkLogManager.CalculateSummary | core/work_log_manager.py:91-138 | on success today's summary becomes `ApplyTotals` of the computed totals and is saved; on an uncaught error that error is returned and neither the log nor the saved copy changes |
| Manager.ScenarioDays | core/work_log_manager.py:150-162 | a 09:00 start, idle at 12:00 and back at 12:10 give: the session closed at 12:00, the period 12:00-12:10 noted "idle", and an open activity session from 12:10 |

## Left out

- File load and save (`_load`, `_save`) are left out as file I/O. `stored` stands for the last saved log, and the loaded log is a constructor parameter.
- Logging calls are left out; they are side effects only.
- `datetime.now()` is a parameter; the model and the source differ in two ways.
  - Today's date is passed to the constructor.
  - The clock is one minute of the day per call. The source reads the clock again for every open session, so two open sessions in the same call could see different minutes.
- Manager.WorkLogManager.constructor: the configured minutes are an integer. `int(required_hours * 60)` over a float is not modelled.
- Manager.WorkLogManager.UpdateManualAdjustments: only this one path of `update_field` is modelled. Creating arbitrary nested keys along a dotted path over untyped dictionaries is not.
- Timeline.GetTodayValue: only the keys `start_time`, `work_location` and `required_time` are modelled. Other keys and non-text values are not, because the record datatype has no place for them.
- `get_today_log` and `send_summary` are left out; they only return the record or log it after `calculate_summary`.
- Non-ASCII digits and whitespace, which Python's `int()` and `strptime` also accept, are left out; the texts here are `HH:MM` from the clock or the writer.
- Sessions without a `start_time` key and JSON values that are not texts are left out. The record datatypes cannot express them, and the source would raise on them.
- Concurrency between the activity monitor thread and the UI is left out, along with the UI, network detection and startup wiring. None of it is part of the work-log manager.
