# TaperTrack client state, modelled in Dafny

TaperTrack is a single-user web app for following a medication taper. A user logs
one entry per day covering doses, sleep, ratings, ticked medication slots, blood
pressure and a note. The user can also edit the taper schedule, look at history
and export it as CSV, and protect the app with a four-digit PIN.

This project models the client-side state handling that sits under the React
views. Each piece is a pure function over the app's aggregate of daily log
entries, taper schedule, protocol start date and settings. Two parts are small
explicit state machines:

- the debounced save and its sync status;
- the PIN keypad.

Modules, one concept each:

| file | module | models |
|---|---|---|
| `common.dfy` | `Common` | JS truthiness, digit strings, zero padding, lower-casing, string order |
| `dates.dfy` | `Dates` | `YYYY-MM-DD` dates as (year, month, day); string order equals chronological order |
| `types.dfy` | `Model` | types.ts records: entry, taper step, schedule slot, settings, app aggregate |
| `constants.dfy` | `Constants` | constants.ts: default taper schedule, daily schedule, initial settings |
| `log_store.dfy` | `LogStore` | App.tsx: upsert by date, carry-forward lookup |
| `app_sync.dfy` | `AppSync` | App.tsx: start-up load and lock, cloud overlay, 2000 ms debounced save |
| `tracker.dfy` | `Tracker` | DailyTracker.tsx: period of the day, form defaults, edits, edit lock, progress |
| `taper_guide.dfy` | `TaperGuide` | TaperGuide.tsx: schedule list edits, reset, week label |
| `csv.dfy` | `Csv` | field quoting, rendering and a reader for the export's CSV dialect |
| `analytics.dfy` | `Analytics` | HistoryAnalytics.tsx: date sort, stats, monthly groups, CSV export, brain-zap label |
| `settings_form.dfy` | `SettingsForm` | SettingsModal.tsx: PIN enable/disable/set, digit filter, reminders, save |
| `keypad.dfy` | `Keypad` | LoginScreen.tsx: four-digit buffer, compare, delayed reset |

Representation choices:

- Dates are `(year, month, day)` triples.
  - App.tsx compares date strings at line 152 and `Date` values at line 153.
  - `IsoDate` admits the days of the Gregorian calendar, leap years included, in years 1000-9999.
  - `Dates.IsoOrderIsChronological` proves the two orders agree on those dates.
  - `Dates.BeforeIsEarlierTime` proves that this order is the order of the dates' `getTime()` values. Each date's time counts its days from 1000-01-01.
- Doses and sleep hours are integers in tenths.
  - 4.5 mg is `45`.
- An optional property is an `Option`.
  - JS truthiness of an optional boolean is `Common.Truthy`.
  - Truthiness of an optional string is `Common.NonEmpty`.
- Effects are modelled as parameters.
  - The browser storage and the cloud answer on load are parameters of `AppSync.Load`.
  - The success of a cloud save is the payload of `AppSync.SaveResult`.
  - The clock is the `Elapse` event.
  - The browser's notification permission answer is a parameter of `SettingsForm.ReminderButton`.
- React re-runs an effect only when a dependency is a different value by `Object.is`.
  - The log and step handlers always build new arrays, so they always re-run the save effect.
  - A reset hands back the `TAPER_SCHEDULE` constant and `''`, so `AppSync.Machine` records whether the schedule held is still that constant.
  - The settings dialog hands back its `formData`, which stays the app's own settings object until a control rebuilds it; `AppSync.Machine` holds the dialog's form and whether it was rebuilt.
  - The PIN screen's comparison effect also depends on `onSuccess`, a new function on every App render; such a render is the `Keypad.Rerender` key.

## Model

| member | source | states |
|---|---|---|
| `LogStore.FindIndex` | App.tsx:136 | the index found is the first entry with that date; none is found exactly when no entry has the date |
| `LogStore.Find` | App.tsx:148 | an entry is found exactly when one has the date, and it is the first such in list order |
| `LogStore.Upsert` | App.tsx:134-145 | an entry whose date is present replaces the first such entry in place, same length; otherwise it is appended and the prefix is the old list |
| `LogStore.UpsertThenFind` | App.tsx:134-145 | looking up the date just upserted finds exactly the upserted entry |
| `LogStore.UpsertIdempotent` | App.tsx:134-145 | upserting the same entry twice gives the same list as once |
| `LogStore.UpsertKeepsUniqueDates` | App.tsx:134-145 | at most one entry per date is preserved |
| `LogStore.UpsertDates` | App.tsx:134-145 | the dates present afterwards are the old dates plus the entry's date, no more |
| `LogStore.Earlier` | App.tsx:151-152 | keeps exactly the entries dated strictly before the given date |
| `LogStore.LatestIndex` | App.tsx:153-156 | picks an entry dated no earlier than any other, the first such |
| `LogStore.LatestBefore` | App.tsx:151-156 | locates in the whole list an entry before the date, no earlier than any other such, and the first in list order among those of its date; none exactly when nothing is before the date |
| `LogStore.LatestOfEarlier` | App.tsx:151-156 | filtering to the earlier entries and then taking the latest picks exactly the entry `LatestBefore` locates, and finds nothing exactly when it does |
| `LogStore.LogContext` | App.tsx:147-173 | gives the first stored entry for the date if any; otherwise a fresh entry for the date carrying the doses of the latest earlier entry (the first in list order among equally late ones), with the fixed defaults and no energy, vitals, factors or completion flag; none exactly when no entry is on or before the date |
| `LogStore.CarryForwardExample` | App.tsx:155-170 | a day after the only log gets that log's dose, anxiety 5 and no ticked items |
| `Dates.DayKeyOrder` | App.tsx:153 | the integer day key orders dates exactly as their times do, both directions, and equal keys are equal times and equal dates |
| `Dates.BeforeIsEarlierTime` | App.tsx:153 | a date is earlier in the calendar exactly when its `getTime()` is smaller, and equal exactly when the times are equal; time is counted by days, month lengths and leap years |
| `Dates.ToIso` | types.ts:18 | renders a date as ten characters with dashes at positions 4 and 7 |
| `Dates.MonthKey` | components/HistoryAnalytics.tsx:82 | the month key has the date's year and month, day 1, and is on or before the date |
| `Dates.BeforeIsStrictOrder` | App.tsx:152-153 | date order is irreflexive, asymmetric, transitive and total |
| `Dates.IsoOrderIsChronological` | App.tsx:152-153 | string comparison of rendered dates agrees with date order, and rendering is injective |
| `Common.NatToStringRoundTrip` | components/HistoryAnalytics.tsx:82 | reading back the decimal rendering of a number gives the number |
| `Common.PadRoundTrip` | components/HistoryAnalytics.tsx:82 | reading back a zero-padded rendering gives the number |
| `Common.PadOrder` | App.tsx:152 | zero-padded renderings of equal width compare as strings the way the numbers compare |
| `Common.LexLessAppend` | App.tsx:152 | comparing two strings with equal-length heads is decided by the heads unless they are equal |
| `Common.ToLowerChar` | components/TaperGuide.tsx:230 | ASCII capitals map to their lower case and the Kelvin sign to 'k'; the result is a lower-case ASCII letter exactly for those and for lower-case ASCII letters |
| `Common.Lower` | components/TaperGuide.tsx:230 | lower-cases each character, keeping the length |
| `Constants.TaperScheduleFacts` | constants.ts:3-14 | ten steps starting at 5.0 mg, numeric doses strictly decreasing over steps 1-9, the last a text label, only the 2.0 mg step critical |
| `Constants.DailyScheduleFacts` | constants.ts:16-89 | five slots with distinct ids and 5, 2, 1, 1, 1 items; no id contains a dash |
| `AppSync.Overlay` | App.tsx:67-77 | each of logs, schedule and settings is replaced exactly when present in the loaded data; the start date only when a non-empty string |
| `AppSync.OverlayNothing` | App.tsx:68-72 | loaded data with nothing present leaves the state as it was |
| `AppSync.OverlayLaterWins` | App.tsx:55-73 | overlaying local then cloud data: a field the cloud holds wins, otherwise the local one stands |
| `AppSync.Load` | App.tsx:45-83 | the app starts locked exactly when the locally stored settings enable the lock and hold a code; status is success exactly when the cloud answered |
| `AppSync.CloudSettingsCanHideLock` | App.tsx:61-77 | local settings with a lock and cloud settings without one leave the app locked, yet the PIN screen is not shown |
| `AppSync.SaveEffect` | App.tsx:86-109 | a state change stores the current values locally, sets status syncing and replaces any timer by one that fires in 2000 ms with the current values |
| `AppSync.Start` | App.tsx:23-109 | after loading, the save effect runs once: status syncing, local copy stored, one timer pending, nothing sent; the schedule is still the constant exactly when no store held one; the dialog holds the loaded settings, unedited |
| `AppSync.Apply` | App.tsx:134-145 | each change sets exactly its own value: the upserted logs, the new schedule, the default schedule with no start date, the start date, or the dialog's settings (the other setters are handed to the views at lines 218 and 274-278) |
| `AppSync.Step` | App.tsx:86-219 | a change React sees updates the data and restarts the save with those values; a change it does not see changes nothing; a dialog control edits the form only while the dialog is shown; a save answer maps to success or error; time only moves forward; unlock comes only from the shown PIN screen, is one-way, and mounts a fresh dialog |
| `AppSync.SavedLockShowsPinScreen` | App.tsx:202-207 | while still locked behind a hidden PIN screen, saving a lock with a code brings the PIN screen up at once, and only its unlock clears the lock |
| `AppSync.SkippedChangeIsNoOp` | App.tsx:86-109 | a change React skips would not have changed the values, so every change of the values re-runs the save |
| `AppSync.EqualValuesCanFire` | components/SettingsModal.tsx:53-105 | setting the reminder time away and back leaves equal settings, yet saving them re-runs the save effect |
| `AppSync.ResetRestoresDefaults` | components/TaperGuide.tsx:22-28 | a confirmed reset gives the default schedule and no start date, keeping logs and settings; a second reset straight after is skipped |
| `AppSync.SaveDialogOnce` | components/SettingsModal.tsx:53-56 | saving the dialog hands its settings to the app; saving again without an edit is skipped |
| `AppSync.UnlockedDialogStartsClean` | App.tsx:202-219 | when the PIN screen gives way, the dialog shown holds the app's settings and saving it unedited changes nothing |
| `AppSync.StartEstablishesInv` | App.tsx:45-109 | after start the local copy equals the state and a pending timer carries the state |
| `AppSync.StepPreservesInv` | App.tsx:86-109 | every event keeps: local copy equals the state; at most one timer, due within 2000 ms, carrying the current state; with no timer the last sent value is the current state; a schedule still the constant holds the default steps; an unedited dialog holds the app's settings |
| `AppSync.QuietPeriodSavesLastChange` | App.tsx:94-107 | a change followed by 2000 quiet ms sends exactly the state after the change, once |
| `AppSync.ShortGapSendsNothing` | App.tsx:95-98 | less than 2000 ms after a change nothing is sent and the timer carries the changed state |
| `AppSync.BurstCoalesces` | App.tsx:86-109 | a burst of changes React sees, each less than 2000 ms apart, sends nothing until 2000 ms after the last, then sends one save with all changes applied |
| `AppSync.SuccessWhileSavePending` | App.tsx:97-106 | an earlier save's success can arrive after a newer change, so "success" shows while that change is still unsent |
| `AppSync.UnlockIsFinal` | App.tsx:206 | once unlocked the app stays unlocked |
| `AppSync.ReloadRestores` | App.tsx:53-58 | loading from the local copy alone restores the current state |
| `Tracker.CountReachedMonotone` | components/DailyTracker.tsx:68-75 | counting boundaries reached is monotone in the hour |
| `Tracker.PeriodIndex` | components/DailyTracker.tsx:68-75 | the period is one of the five slots, the number of boundaries 11, 14, 17, 21 the hour has reached |
| `Tracker.CurrentPeriodId` | components/DailyTracker.tsx:68-75 | the current period id is the id of a daily schedule slot |
| `Tracker.PeriodMonotone` | components/DailyTracker.tsx:68-75 | a later hour never maps to an earlier slot |
| `Tracker.EverySlotIsCurrentAtSomeHour` | components/DailyTracker.tsx:70-74 | every schedule slot is the current period at some hour of the day |
| `Tracker.DefaultEntry` | components/DailyTracker.tsx:77-96 | the blank form has the date, the first step's dose, no evening dose, 7 hours of sleep, no nap, energy, anxiety, mood and smoking 5, depression 1, no brain zaps, an empty note, no readings, no ticked items or factors, not complete |
| `Tracker.FillDefaults` | components/DailyTracker.tsx:101-114 | present values are kept; each absent optional field gets its default |
| `Tracker.FormFor` | components/DailyTracker.tsx:101-134 | the form is always normalised: default entry without log data, filled log data otherwise |
| `Tracker.FillDefaultsIdempotent` | components/DailyTracker.tsx:101-114 | filling an already normalised entry changes nothing |
| `Tracker.FormForAsWritten` | components/DailyTracker.tsx:101-105 | as written, the blood-pressure fields of the previously shown form survive where the new log has none |
| `Tracker.FormForAsWrittenLeaksVitals` | components/DailyTracker.tsx:101-105 | a reading from the previous day shows on a new day's form and is sent with the next edit |
| `Tracker.FormForAgreesWithoutStaleVitals` | components/DailyTracker.tsx:101-134 | with no previous readings the code as written and the corrected form agree |
| `Tracker.HandleChange` | components/DailyTracker.tsx:148-153 | a completed day ignores the edit; otherwise the updated form is the entry passed on, with date, items and completion kept |
| `Tracker.HandleChangeOnlyThatField` | components/DailyTracker.tsx:148-153 | the edited field reads the written value and every other field reads as before |
| `Tracker.ToggleItem` | components/DailyTracker.tsx:136-146 | flips exactly the key `slot-item` and keeps every other key; no-op on a completed day |
| `Tracker.ToggleItemTwice` | components/DailyTracker.tsx:136-146 | toggling an item twice leaves it unticked and every other key as it was |
| `Tracker.Remove` | components/DailyTracker.tsx:158 | removes every occurrence of one id and keeps the others |
| `Tracker.ToggleFactor` | components/DailyTracker.tsx:155-162 | flips membership of exactly one factor id and keeps the rest; no-op on a completed day |
| `Tracker.ToggleFactorTwice` | components/DailyTracker.tsx:155-162 | toggling a factor twice restores membership of every id |
| `Tracker.ToggleComplete` | components/DailyTracker.tsx:171-181 | flips completion, changes nothing else and passes the result on, even on a completed day |
| `Tracker.ToggleCompleteTwice` | components/DailyTracker.tsx:171-181 | toggling completion twice restores a form whose flag is present |
| `Tracker.CompletedDayIsLocked` | components/DailyTracker.tsx:137-172 | on a completed day field edits, item toggles and factor toggles do nothing; completion can still be toggled |
| `Tracker.CountTicked` | components/DailyTracker.tsx:188-191 | counts ticked keys; all are counted exactly when every key is ticked |
| `Tracker.CountTickedAppend` | components/DailyTracker.tsx:186-191 | counting slot after slot adds up: the count over two lists of keys is the sum of their counts |
| `Tracker.RoundedPercent` | components/DailyTracker.tsx:192-194 | the percentage lies in 0..100 and is the nearest integer to completed/total·100, halves rounding up |
| `Tracker.ScheduleKeyCount` | constants.ts:16-89 | the daily schedule has ten slot-item keys, so the denominator is not zero |
| `Tracker.Progress` | components/DailyTracker.tsx:183-195 | progress lies in 0..100 and is the number of ticked scheduled keys out of ten, as a percentage rounded half up (three ticked give 30); it is 100 exactly when every scheduled key is ticked and 0 exactly when none is |
| `Tracker.ZeroTickedMeansNone` | components/DailyTracker.tsx:188-191 | nothing is counted exactly when no key is ticked |
| `Tracker.CountTickedOnlyReadsKeys` | components/DailyTracker.tsx:188-191 | the count depends only on the keys asked about |
| `Tracker.ProgressIgnoresOtherKeys` | components/DailyTracker.tsx:183-195 | keys not derived from the daily schedule do not affect progress |
| `Tracker.CompletionKeyInjective` | components/DailyTracker.tsx:138 | for slot ids without a dash, the key `slot-item` determines slot and item |
| `TaperGuide.StepChange` | components/TaperGuide.tsx:30-34 | length kept, other steps untouched, the step at the index gets the field written |
| `TaperGuide.StepChangeFrame` | components/TaperGuide.tsx:30-34 | within the edited step only the named field changes |
| `TaperGuide.ToggleStepComplete` | components/TaperGuide.tsx:254 | the step's completion flips; every other step, and every other field of the step, is unchanged |
| `TaperGuide.ToggleStepCompleteTwice` | components/TaperGuide.tsx:254 | toggling twice restores a step whose flag is present |
| `TaperGuide.AddStep` | components/TaperGuide.tsx:36-43 | appends the "New Phase" step with dose 0 and the placeholder note, prefix unchanged |
| `TaperGuide.DeleteStep` | components/TaperGuide.tsx:45-48 | an index in range removes one step; an index out of range leaves the schedule unchanged |
| `TaperGuide.DeleteStepSplices` | components/TaperGuide.tsx:45-48 | deleting keeps the steps before and after the index, in order |
| `TaperGuide.AddThenDeleteLast` | components/TaperGuide.tsx:36-48 | deleting the step just added restores the schedule |
| `TaperGuide.Reset` | components/TaperGuide.tsx:22-28 | reset gives the default schedule and an empty start date |
| `TaperGuide.WeekLabel` | components/TaperGuide.tsx:230 | a label starting with "week" in any case is kept, else "Weeks " is prefixed; the result always starts with "week" |
| `TaperGuide.KelvinSignLabel` | components/TaperGuide.tsx:230 | a label spelled with the Kelvin sign for its k is already a week label and is kept as typed |
| `TaperGuide.WeekLabelIdempotent` | components/TaperGuide.tsx:230 | relabelling a label changes nothing |
| `Csv.ParseQuotedEscape` | components/HistoryAnalytics.tsx:125 | reading a quoted field with inner quotes doubled gives back the original text and the rest of the input |
| `Csv.ParsePlainText` | components/HistoryAnalytics.tsx:119-124 | a field without comma, quote or newline reads back unchanged |
| `Csv.ParseFieldRender` | components/HistoryAnalytics.tsx:118-126 | every rendered field reads back as its text |
| `Csv.ParseRowRender` | components/HistoryAnalytics.tsx:130 | a comma-joined row reads back as its fields' texts |
| `Csv.ParseRenderRoundTrip` | components/HistoryAnalytics.tsx:128-131 | a newline-joined table of safe rows reads back as the texts of its rows |
| `Analytics.SortedIsChronological` | components/HistoryAnalytics.tsx:29-31 | sorted by day key means every earlier position is on or before every later one |
| `Analytics.InsertPermutes` | components/HistoryAnalytics.tsx:30 | inserting adds exactly the one entry |
| `Analytics.InsertSorted` | components/HistoryAnalytics.tsx:30 | inserting into a sorted list keeps it sorted |
| `Analytics.SortByDate` | components/HistoryAnalytics.tsx:29-31 | the result is a permutation of the logs in ascending date order |
| `Analytics.InsertKeepsDayOrder` | components/HistoryAnalytics.tsx:30 | inserting an entry puts it after the entries of its own day and leaves every day's entries in their order |
| `Analytics.SortByDateIsStable` | components/HistoryAnalytics.tsx:29-31 | the sort is stable: for every day, its entries come out in the order they were logged |
| `Analytics.LastOfDay` | components/HistoryAnalytics.tsx:43 | the position it gives, if any, holds an entry of the day with no entry of that day after it |
| `Analytics.LastOfDayEndsDay` | components/HistoryAnalytics.tsx:43 | a day has entries exactly when `LastOfDay` finds one, and the last of that day's entries in order is the one found |
| `Analytics.SortedLastIsLatest` | components/HistoryAnalytics.tsx:29-43 | no log is dated after the last entry of the sorted list |
| `Analytics.LastIsLatest` | components/HistoryAnalytics.tsx:29-43 | the last sorted entry is a latest-dated log, and of those the last one logged |
| `Analytics.ComputeStats` | components/HistoryAnalytics.tsx:33-51 | none exactly for no logs; the current dose is the dose of the last-logged of the latest-dated logs; the window is the last min(7, n) logs in date order |
| `Analytics.WindowIsLatest` | components/HistoryAnalytics.tsx:36 | every log in the window is on or after every log left out |
| `Analytics.MonthKeyMonotone` | components/HistoryAnalytics.tsx:82-88 | a later entry never has an earlier month key |
| `Analytics.GroupByMonth` | components/HistoryAnalytics.tsx:69-86 | the last group is keyed by the last entry's month; no entries, no groups |
| `Analytics.GroupByMonthStep` | components/HistoryAnalytics.tsx:69-86 | grouping one more log, whether it joins the last month or opens a new one, appends just that log to the groups read in order |
| `Analytics.GroupsFlattenToInput` | components/HistoryAnalytics.tsx:69-86 | concatenating the groups gives back the input in order |
| `Analytics.GroupsWellKeyed` | components/HistoryAnalytics.tsx:82-85 | every entry sits in the group keyed by its month |
| `Analytics.GroupKeysAscend` | components/HistoryAnalytics.tsx:88 | group keys of a sorted list strictly ascend |
| `Analytics.MonthlyGroups` | components/HistoryAnalytics.tsx:69-88 | groups partition the sorted logs, each keyed by its month, keys ascending, none exactly for no logs; the key texts come in the string order `Object.keys(groups).sort()` gives |
| `Analytics.KeyTextsAscend` | components/HistoryAnalytics.tsx:88 | groups in date order have their key texts in ascending string order |
| `Analytics.GroupOfEveryLog` | components/HistoryAnalytics.tsx:84-85 | every log lands in exactly one group, the one of its month |
| `Analytics.MonthKeyTextIsIso` | components/HistoryAnalytics.tsx:82 | the key text built from year and padded month is the ISO rendering of the month's first day |
| `Analytics.IntTextReadsBack` | components/HistoryAnalytics.tsx:122-123 | an anxiety or mood cell reads back as the number written, sign included |
| `Analytics.TenthsTextReadsBack` | components/HistoryAnalytics.tsx:120-121 | a dose or sleep cell reads back as the number written, in tenths, sign included |
| `Analytics.DepressionText` | components/HistoryAnalytics.tsx:124 | the depression cell is empty exactly when the value is absent or 0 |
| `Analytics.HeaderFields` | components/HistoryAnalytics.tsx:115 | seven plain header cells with the column titles |
| `Analytics.RowFields` | components/HistoryAnalytics.tsx:118-126 | seven safe cells, the date first and the quoted note last |
| `Analytics.CsvRows` | components/HistoryAnalytics.tsx:118 | one row per log, in the given order |
| `Analytics.ExportCsv` | components/HistoryAnalytics.tsx:111-131 | no export exactly when there are no logs |
| `Analytics.ExportReadsBack` | components/HistoryAnalytics.tsx:111-131 | the export reads back as the header plus one seven-field row per log, in date order, each log's date, dose, sleep, anxiety, mood, depression and note in its cells |
| `Analytics.BrainZapLabel` | components/HistoryAnalytics.tsx:439 | absent or 0 shows None; 1 to 3 show Mild, Mod, Severe; anything else shows nothing |
| `SettingsForm.Open` | components/SettingsModal.tsx:13-14 | the dialog starts from the current settings with no PIN typed |
| `SettingsForm.TogglePin` | components/SettingsModal.tsx:18-29 | enabling with no code and nothing typed does nothing; disabling clears the code and the typed PIN; reminders untouched |
| `SettingsForm.SavePin` | components/SettingsModal.tsx:31-36 | acts exactly when four characters are typed: lock on with that code, buffer cleared |
| `SettingsForm.KeepDigits` | components/SettingsModal.tsx:146 | the filter leaves only digits, never more characters than given |
| `SettingsForm.KeepDigitsFixesDigits` | components/SettingsModal.tsx:146 | the filter leaves a string unchanged exactly when it is all digits |
| `SettingsForm.KeepDigitsIdempotent` | components/SettingsModal.tsx:146 | filtering twice equals filtering once |
| `SettingsForm.PinInput` | components/SettingsModal.tsx:141-146 | the typed PIN is at most four digits; up to four digits typed are kept as they are |
| `SettingsForm.LockButton` | components/SettingsModal.tsx:126-132 | the lock switch can only switch the lock off |
| `SettingsForm.ReminderButton` | components/SettingsModal.tsx:38-51 | switching off is immediate; switching on follows the browser's answer; PIN untouched |
| `SettingsForm.SetTime` | components/SettingsModal.tsx:105 | sets the reminder time and nothing else |
| `SettingsForm.SaveAll` | components/SettingsModal.tsx:53-56 | the settings handed back are the edited ones, unchanged |
| `SettingsForm.SaveOpenedIsIdentity` | components/SettingsModal.tsx:13-56 | saving a dialog just opened hands back the settings it was opened on |
| `SettingsForm.UnrebuiltKeepsSettings` | components/SettingsModal.tsx:18-105 | a control that does not call `setFormData` (typing a PIN, a short "Set PIN", an unanswerable reminder request) leaves the settings unchanged |
| `SettingsForm.OpenedDialogSavesSafeLock` | components/SettingsModal.tsx:13-56 | a dialog opened on settings whose lock has a four-digit code saves settings with the same guarantee, whatever controls are used |
| `SettingsForm.HandleKeepsPinSafe` | components/SettingsModal.tsx:31-36 | every wired control keeps: lock on implies a four-digit code |
| `SettingsForm.SavedLockHasPin` | components/SettingsModal.tsx:53-56 | after any sequence of wired controls, saved settings with the lock on carry a four-digit code |
| `SettingsForm.ToggleOnSkipsPinCheck` | components/SettingsModal.tsx:18-29 | the unwired enable path would switch the lock on without a code |
| `Keypad.Settle` | components/LoginScreen.tsx:13-25 | at four characters a match unlocks and a mismatch shows an error and starts a reset timer; shorter buffers change nothing |
| `Keypad.Press` | components/LoginScreen.tsx:27-32 | a key is appended only while fewer than four are held; a key that does not complete the code clears the error |
| `Keypad.Delete` | components/LoginScreen.tsx:34-36 | removes the last character; an empty buffer stays empty |
| `Keypad.ResetFires` | components/LoginScreen.tsx:17-22 | the reset timer empties the buffer and clears the error |
| `Keypad.StepKeepsInv` | components/LoginScreen.tsx:27-82 | the buffer stays at most four digits |
| `Keypad.UnlockNeedsStoredPin` | components/LoginScreen.tsx:14-16 | a key press unlocks only when the buffer is four characters equal to the stored code |
| `Keypad.OtherLengthNeverUnlocks` | components/LoginScreen.tsx:14-16 | a stored code of any length other than four can never be entered |
| `Keypad.TypeFour` | components/LoginScreen.tsx:13-32 | typing four keys unlocks exactly when they match the stored code, else shows an error with one reset pending |
| `Keypad.WrongCodeResets` | components/LoginScreen.tsx:17-22 | after a wrong code, the reset leaves an empty buffer, no error, still locked |
| `Keypad.RunAppend` | components/LoginScreen.tsx:13-36 | running two key sequences one after the other is running their concatenation |
| `Keypad.RerenderClearsLaterDigit` | components/LoginScreen.tsx:13-25 | after a wrong code, a digit typed after the reset stays; with an App re-render before the reset, a second reset timer clears that digit too |

## Left out

- Browser storage and cloud I/O are left out. `localStorage` JSON, `fetch` and api.ts become plain parameters: what each store returns, and whether a save succeeded. The backend (public/api/index.php) and its diagnostic page are not part of this model.
- AuthScreen.tsx is left out. It calls API methods that do not exist and is not wired into the app.
- Concurrency of saves is not constrained. Overlapping cloud saves are possible in the source, so the model counts saves in flight and lets any of them answer in any order. It does not assert at most one in flight.
- `AppSync.BurstCoalesces`: requires every change of the burst to be one React sees. A skipped change does not restart the timer, so a burst containing one can be sent in two parts.
- View changes (`AppSync.Mutate`) are not restricted to the main screen. The model lets them happen while the PIN screen shows, although the source renders no view to make them then. Dialog controls and the dialog's save are restricted.
- The notification interval (App.tsx:112-131) is a timer-driven browser side effect and is left out. The permission request itself is reduced to its answer.
- `confirm()` before reset is a browser dialog. Only the confirmed path is modelled.
- Floating-point averages and `toFixed` are left out: the sleep, anxiety and mood stats and the group averages (components/HistoryAnalytics.tsx:37-41, 90-95). `Analytics.ComputeStats` keeps the current dose and the window the averages are taken over.
- Weekly grouping, `toLocaleDateString`, `changeDate` and the "today" checks are left out. They depend on JS `Date` and the local time zone.
- `parseInt`/`parseFloat` of form inputs are left out. The model takes the parsed number as the field's value.
- InventoryModal.tsx and `daysRemaining` are left out: float stock arithmetic in a modal the app never mounts.
- `Common.Lower`: maps ASCII capitals and U+212A KELVIN SIGN, the only characters whose lower case is an ASCII letter, and keeps every other character. So it agrees with `toLowerCase` on whether a label starts with "week". It does not agree on the rest of a label; U+0130, for one, lower-cases to two characters in JS.
- Dates outside `IsoDate` are not modelled: years before 1000 or after 9999, and days a month does not have, such as 02-30. On those, the source's orders disagree. `new Date` rolls 2024-02-30 over to March or rejects it, depending on the engine. The unpadded year of a month key sorts "999-12-01" after "1000-01-01".
- `TaperGuide.StepChange`: requires an index inside the schedule. The view only calls it from a rendered step; JS would silently extend the array for an index past the end.
- `SettingsForm.PinInput`: `maxLength` is modelled as taking the first four characters of the raw input, before the digit filter.
- What makes App re-render while the PIN screen shows (a sync status update, say) is not linked between `AppSync` and `Keypad`: a re-render is an event of its own.
- Tracking factors are plain string ids. The list of factors the view renders is not defined in constants.ts.
- `smokingLevel` stays a required number, as in types.ts, although the tracker treats it like the optional ratings.
- `Keypad.Press`: only promises that the error is cleared when the key does not complete the code. A fourth key that is wrong sets the error again in the same update.

## Findings

| source | as written | input that shows it | evidently intended | confidence | as-written member | corrected member |
|---|---|---|---|---|---|---|
| components/DailyTracker.tsx:101-114 | the form for a newly selected day is `{...prev, ...logData, ...}`, so blood-pressure fields of the previously shown day survive when the new day's log has none | previous form with morning systolic 120; select a day whose log has no readings; edit its note | the form shows only the selected day's own data, as for every other field, which is explicitly defaulted | not executed | `Tracker.FormForAsWrittenLeaksVitals` | `Tracker.FormFor` |
