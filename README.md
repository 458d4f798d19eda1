# Lecture timer: a Dafny model

This project models the core of a browser lecture timer in Dafny. The app counts
down a lecture or a break, runs into overtime after a lecture's time is up, and
plays warning, end and overtime sounds. When a break ends, it starts the next
lecture by itself. Next to the timer sits a notes editor, which has zoom steps
and a list of saved documents. The interface is available in Japanese or English.

The model covers four classes:

- `TimerApp` (js/app.js) is modelled twice.
  - `TimerModel` is a pure state machine over a `Timer` record. It has one function per handler and an `Apply`/`Run` over a sequence of events. `TimerProperties` proves what the handlers promise about it.
  - `App.TimerApp` is a class with the same fields. Its methods assign those fields step by step, as the original does, and each one is proved to leave exactly the state the matching `TimerModel` function describes.
  - Sounds go into a ghost log of cues.
  - `TimerView` holds the values the display computes: `formatTime`, the timer text, the progress bar, the end time and the visible buttons.
- `DocumentManager` (js/document.js) is the class `Documents.DocumentManager`.
  - Its list of records is a `seq<Doc>` that the methods reassign.
  - The sort and the title search are pure functions with lemmas.
  - `Text` models the string built-ins those operations use: `trim`, `split('\n')` and `substring`.
  - `Decimal` models `toString` and `padStart`.
- `EditorManager` (js/editor.js) is the class `Editor.EditorManager`: the zoom stepper, and the visibility, initialisation and auto-save flags.
- `I18nManager` (js/i18n.js) is the class `I18n.I18nManager`, over the two translation tables, which are copied as map constants.

Things outside the program become parameters:

- The wall clock is a `now` in milliseconds.
- Every `setInterval` and `setTimeout` callback is an explicit call: `Tick`, `AutoStartDue` (which starts the oldest scheduled lecture once its due time has come), `AutoSaveDue`, and the deferred `initialize` of a panel stored as visible (js/editor.js:238), which is a later call of `Editor.EditorManager.Initialize`.
- The answers to `prompt` and `confirm` are parameters.
- So are the editor's plain text and its contents (an opaque `Content`), the dated "Untitled" fallback title, and what storage held at start-up.

Some behaviours of the code worth knowing:

- Shortening a break that has five minutes left by ten minutes does not end it. The proposed end time is in the past, so `adjustEndTime` rejects it (`TimerProperties.ShortenBreakRejected`).
- The session counter never changes. `timerComplete` tests for a lecture only after `stopTimer` has already set the mode to idle (`TimerProperties.RunKeepsSession`).
- The warning cue has no once-only guard. It sounds on every tick that computes exactly the warning time (`TimerProperties.WarningCue`).
- The automatic lecture start after a break is never cancelled. Neither `stopTimer` nor a new start cancels it (`TimerProperties.AutoStartNotCancelled`).
- An end-time extension does not clear overtime. A lecture can be in overtime while showing a positive count (`TimerProperties.ExtensionKeepsOvertime`).
- `startLecture` is accepted in any mode. The lecture button shown during a break calls it.

## Model

| member | source | states |
|---|---|---|
| TimerModel.Initial | js/app.js:2-17 | The constructor's state is idle, at session 1, with nothing scheduled, and satisfies the invariant (setting ranges; idle means no count, no overtime and no custom end; overtime only in a lecture). |
| TimerModel.FloorDiv | js/app.js:399 | `Math.floor(ms / d)` is the q with `q*d <= ms < q*d + d`. |
| TimerModel.TruncateToMinute | js/app.js:585 | `setSeconds(0, 0)` gives a whole minute no later than the time, and less than a minute before it. |
| TimerModel.PlaySound | js/app.js:491-498 | A cue is played, at most once, exactly when the volume is positive and the app is not muted. |
| TimerModel.StartLecture | js/app.js:344-361 | Starting a lecture keeps the invariant. |
| TimerModel.StartBreak | js/app.js:363-383 | Starting a break keeps the invariant. |
| TimerModel.StopTimer | js/app.js:425-442 | Stopping keeps the invariant. |
| TimerModel.AutoStartDue | js/app.js:454-459 | The deferred lecture start keeps the invariant. |
| TimerModel.TickRemaining | js/app.js:394-401 | The count a tick computes is the whole seconds left to the custom end time, or the captured count less the whole seconds elapsed since the start. |
| TimerModel.AdjustCandidate | js/app.js:578-585 | The proposed end time is the whole minute at or below the current end (the custom end, or now plus the count) moved by the given minutes. |
| TimerModel.AdjustSetting | js/app.js:283-333 | Every settings step button keeps the invariant. |
| TimerModel.HandleKeyboard | js/app.js:688-722 | Every keyboard shortcut keeps the invariant. |
| TimerProperties.ApplyKeepsInv | js/app.js:86-150 | Every event handler keeps the invariant. |
| TimerProperties.RecalculateKeepsInv | js/app.js:595-606 | `recalculateTimeRemaining` on a running session keeps the invariant. |
| TimerProperties.TickKeepsInv | js/app.js:392-419 | The interval callback keeps the invariant. |
| TimerProperties.RunKeepsInv | js/app.js:86-150 | Any sequence of events keeps the invariant, so every reachable state satisfies it. |
| TimerProperties.TimerCompleteKeepsSession | js/app.js:444-451 | `timerComplete` never increments the session counter, because the mode is already idle when it is tested. |
| TimerProperties.ApplyKeepsSession | js/app.js:444-451 | No handler changes the session counter. |
| TimerProperties.RunKeepsSession | js/app.js:444-451 | No sequence of events changes the session counter. |
| TimerProperties.StartLectureBegins | js/app.js:344-361 | After `startLecture`: lecture mode with the lecture length in seconds, no overtime, no custom end, unmuted, the rest of the state unchanged, and a tick within the first second computes exactly the planned count. |
| TimerProperties.StartBreakBegins | js/app.js:363-383 | After `startBreak(k)`: break mode with break 1's length for k = 1 and otherwise break 2's, k recorded, no overtime, no custom end, unmuted, and a tick within the first second computes the planned count. |
| TimerProperties.CountdownFromStart | js/app.js:390-400 | `d` ms after a start without a custom end, the count is the planned count less `d / 1000`. |
| TimerProperties.StopTimerIdempotent | js/app.js:425-442 | `stopTimer` leads to idle with no count, no overtime and no custom end; a second stop changes nothing. |
| TimerProperties.BreakStopLecture | js/app.js:344-442 | Starting a break, stopping and starting a lecture leaves no custom end time and no overtime. |
| TimerProperties.OvertimeOnlyFromLectureTick | js/app.js:404-407 | Overtime begins only on a lecture tick whose new count is below zero. |
| TimerProperties.RecalculateKeepsOvertime | js/app.js:595-606 | `recalculateTimeRemaining` neither sets nor clears overtime, except by completing a break. |
| TimerProperties.OvertimeClearedOnlyByStartOrStop | js/app.js:344-442 | Overtime is cleared only by handlers that start or stop a session. |
| TimerProperties.LectureTick | js/app.js:392-419 | A lecture tick never ends the lecture; the new count is the computed one; overtime holds iff it held before or the count is negative; the end cue sounds iff this tick flips into overtime and sound is audible. |
| TimerProperties.WarningCue | js/app.js:469-479 | On a lecture tick the warning cue sounds iff the count equals the warning time exactly and sound is audible, with no once-only guard. |
| TimerProperties.ElapsedCue | js/app.js:481-489 | On a lecture tick the overtime cue sounds iff the count is negative, its magnitude is a multiple of the tick interval, and sound is audible. |
| TimerProperties.ElapsedCueEveryInterval | js/app.js:481-489 | With a 60-second interval the overtime cue sounds at 120 s of overtime but not at 30 s or 90 s. |
| TimerProperties.BreakTickCompletes | js/app.js:414-415 | A break tick whose count reaches zero or below ends the break. The result is idle with no count, the end cue, a lecture start due one second later, and the session counter unchanged. |
| TimerProperties.BreakTickContinues | js/app.js:416-419 | A break tick with time left only updates the count and plays nothing. |
| TimerProperties.AutoStartNotCancelled | js/app.js:454-459 | Once its due time has come, the oldest scheduled start begins a lecture whatever is running and is consumed; before then nothing changes. |
| TimerProperties.TickIgnoresStoredCount | js/app.js:394-401 | A tick recomputes from the clock; the stored count has no influence. |
| TimerProperties.TickIdempotent | js/app.js:392-419 | A second tick at the same instant leaves the same state. |
| TimerProperties.AdjustRejected | js/app.js:578-588 | `adjustEndTime` is a no-op when idle or when the proposed end time is not after now. |
| TimerProperties.AdjustAccepted | js/app.js:578-606 | An accepted adjustment sets the custom end time to the proposed whole minute and recounts from it. It ends the session exactly when a break has under a second left, and then plays the end cue, schedules a lecture start one second later and keeps the session counter. Otherwise it leaves a non-negative count and overtime as it was. |
| TimerProperties.ShortenBreakRejected | js/app.js:578-588 | Taking ten minutes off a break with five minutes left is rejected: nothing changes. |
| TimerProperties.ExtensionKeepsOvertime | js/app.js:578-606 | Extending a lecture in overtime by ten minutes gives a positive count while the overtime flag stays set. |
| TimerProperties.SettingStep | js/app.js:283-333 | A step button moves its setting by its step (1, or 10 for the tick interval), clamped to [1,300], [1,120], [1,10] or [10,300], and keeps it in range. |
| TimerProperties.SettingFrame | js/app.js:283-333 | A step button changes only its own setting, and nothing at all when that setting is already at the bound it moves towards. |
| TimerProperties.KeyboardFrame | js/app.js:688-722 | No shortcut changes the settings, the volume, the session counter or the scheduled starts, and a key typed outside an input changes the mode only to its own target: `l` to a lecture, `b` to a break, `s` or Escape to idle. |
| TimerView.FormatTimeSign | js/app.js:628-633 | `formatTime` ignores the sign. |
| TimerView.FormatTimeShape | js/app.js:628-633 | `formatTime` writes at least two minute digits, a colon and exactly two second digits, holding the minutes and seconds of the magnitude. |
| TimerView.FormatTimeRoundTrip | js/app.js:628-633 | Reading back what `formatTime` writes gives the magnitude. |
| TimerView.FormatTimeStartsWithDigit | js/app.js:628-633 | `formatTime` output starts with a digit. |
| TimerView.TimerTextReadsBack | js/app.js:519-528 | The timer text reads back as the lecture length when idle, as `+` and the overtime in overtime, and as the count otherwise. |
| TimerView.ProgressBounds | js/app.js:530-550 | Progress is 0 when idle and 100 in overtime. Otherwise it lies in [0, 100] for a count within the planned length: 0 at the start and 100 at zero. |
| TimerView.ProgressMonotone | js/app.js:530-550 | Less time left never shows a shorter bar. |
| TimerView.EndTimeAgrees | js/app.js:562-576 | The end time is shown iff a session runs. It is the custom end time when set, otherwise now plus the time left (never before now). After a lecture tick, the count is the whole seconds up to the end shown. |
| TimerView.LectureTickCount | js/app.js:392-419 | A lecture tick keeps the mode and custom end time and stores the computed count. |
| TimerView.OvertimeAdjustStartsInPast | js/app.js:568-588 | Two minutes into overtime, the end time shown is now, but adding one minute is rejected because the adjustment starts from the past. |
| TimerView.ShortcutsMatchButtons | js/app.js:616-626 | The `l`, `b` and `s` shortcuts act exactly when their buttons are shown. Stop is shown iff Start Lecture is not, and the break-time lecture button iff the break buttons are not. |
| App.TimerApp.constructor | js/app.js:2-17 | The new app's fields are the initial state, which satisfies the invariant. |
| App.TimerApp.PlaySound | js/app.js:491-498 | The cue is logged iff it is audible, and no field changes. |
| App.TimerApp.UnmuteSounds | js/app.js:508-516 | Only the mute flag changes, to false. |
| App.TimerApp.ToggleMute | js/app.js:500-506 | Only the mute flag flips; the invariant is kept. |
| App.TimerApp.SetVolume | js/app.js:125-130 | Only the volume changes. |
| App.TimerApp.TestSound | js/app.js:133-138 | A test button plays its cue through the same gate and changes nothing. |
| App.TimerApp.StartTimer | js/app.js:385-391 | The interval captures the clock and the current count. |
| App.TimerApp.StartLecture | js/app.js:344-361 | The new state is `TimerModel.StartLecture` of the old one, and the invariant is kept. |
| App.TimerApp.StartBreak | js/app.js:363-383 | The new state is `TimerModel.StartBreak` of the old one, and the invariant is kept. |
| App.TimerApp.StopTimer | js/app.js:425-442 | The new state is `TimerModel.StopTimer` of the old one, and the invariant is kept. |
| App.TimerApp.TimerComplete | js/app.js:444-467 | The new state and the cues are those of `TimerModel.TimerComplete`. |
| App.TimerApp.AutoStartDue | js/app.js:454-459 | The new state is `TimerModel.AutoStartDue` of the old one, and the invariant is kept. |
| App.TimerApp.CheckSoundTriggers | js/app.js:469-479 | Only the warning cue of `TimerModel.CheckSoundTriggers` is logged. |
| App.TimerApp.CheckOvertimeSounds | js/app.js:481-489 | Only the overtime cue of `TimerModel.CheckOvertimeSounds` is logged. |
| App.TimerApp.RecalculateTimeRemaining | js/app.js:595-606 | The new state and cues are those of `TimerModel.RecalculateTimeRemaining`. |
| App.TimerApp.AfterCount | js/app.js:403-418 | The part of the tick after the recount leaves the state and cues of `TimerModel.AfterCount`. |
| App.TimerApp.Tick | js/app.js:392-419 | One interval firing leaves the state and cues of `TimerModel.Tick` and keeps the invariant. |
| App.TimerApp.AdjustEndTime | js/app.js:578-593 | The new state and cues are those of `TimerModel.AdjustEndTime`, and the invariant is kept. |
| App.TimerApp.AdjustSetting | js/app.js:283-333 | The new state is `TimerModel.AdjustSetting` of the old one, and the invariant is kept. |
| App.TimerApp.HandleKeyboard | js/app.js:688-722 | The new state is `TimerModel.HandleKeyboard` of the old one, and the invariant is kept. |
| Decimal.NatToString | js/app.js:632 | `toString` of a natural number is a non-empty digit string, one digit long iff the number is below ten. |
| Decimal.IntToString | js/document.js:102 | `toString` of an integer is non-empty and starts with `-` iff the integer is negative. |
| Decimal.PadStart | js/app.js:632 | `padStart` has the larger of the two lengths, ends with the string and is filled in front. |
| Decimal.NatToStringValue | js/app.js:632 | Reading back `toString` gives the number. |
| Decimal.PadZerosValue | js/app.js:632 | Zero padding keeps the digits' value. |
| Text.TrimStart | js/document.js:127-131 | The leading-space removal keeps a suffix of the text. |
| Text.TrimStartSpec | js/document.js:127-131 | The leading-space removal drops only spaces and stops at a non-space. |
| Text.TrimEnd | js/document.js:127-131 | The trailing-space removal keeps a prefix of the text. |
| Text.TrimEndSpec | js/document.js:127-131 | The trailing-space removal drops only spaces and stops at a non-space. |
| Text.TrimEnds | js/document.js:127-131 | `trim` leaves no space at either end. |
| Text.TrimBlank | js/document.js:127-131 | `trim` gives the empty string iff the string is all spaces. |
| Text.TrimSpec | js/document.js:127-131 | `trim` leaves no space at either end, never lengthens, and is empty iff the string is all spaces. |
| Text.TrimTrimmed | js/document.js:127-131 | A trimmed string is its own trim. |
| Text.TrimIdempotent | js/document.js:127-131 | Trimming twice is trimming once. |
| Text.Prefix | js/document.js:149 | `substring(0, n)` is the first min(n, length) characters, counted as Unicode scalar values. |
| Text.Lines | js/document.js:144 | `split('\n')` gives at least one piece, none holding a line feed. |
| Text.LinesJoin | js/document.js:144 | Joining the pieces with line feeds gives the text back. |
| Documents.NewId | js/document.js:102 | A new id is `doc_` followed by the clock's decimal digits. |
| Documents.NewIdDistinct | js/document.js:102 | Ids created at different instants differ. |
| Documents.Find | js/document.js:93 | `find` by id gives the first record with the id, and nothing iff none has it. |
| Documents.RemoveId | js/document.js:205 | The filter never lengthens the list. |
| Documents.RemoveIdMembers | js/document.js:205 | The filter keeps exactly the records with another id. |
| Documents.RemoveIdAppend | js/document.js:205 | The filter keeps the order: it distributes over concatenation. |
| Documents.RemoveIdAbsent | js/document.js:205 | Filtering out an id nobody has changes nothing. |
| Documents.RewriteSpec | js/document.js:91-98 | Saving an open document rewrites the title, content and update time of its first record only. Ids, creation times, order and length are kept; nothing changes if the record is missing. |
| Documents.FirstTitleBlank | js/document.js:146-153 | No title is found in the text iff every line is blank. |
| Documents.FirstTitleShape | js/document.js:146-150 | A found title is non-empty, at most 50 characters, and starts with a non-space. |
| Documents.ExtractTitleFromContent | js/document.js:142-162 | The loop returns the first non-blank line, trimmed and cut to 50 characters, or the untitled fallback. |
| Documents.PromptedTitleCases | js/document.js:121-132 | A cancelled prompt gives no title. A non-blank answer gives its trim. A blank answer gives the trim of the extracted title. |
| Documents.PromptedTitleTrimmed | js/document.js:121-132 | The prompted title is trimmed. It is empty only when the answer, the text and the fallback are all blank. |
| Documents.PromptForTitle | js/document.js:121-132 | The method returns the prompted title. |
| Documents.Insert | js/document.js:226-228 | Inserting adds exactly the one record. |
| Documents.InsertNewestFirst | js/document.js:226-228 | Inserting into a newest-first list keeps it newest first. |
| Documents.SortByRecency | js/document.js:226-228 | The sorted copy is newest first and a permutation of the records. |
| Documents.DropdownChoices | js/document.js:218-235 | The dropdown lists "-- New Document --" first, then one entry (id, title) per record, newest first. |
| Documents.DocumentManager.constructor | js/document.js:2-24 | The manager starts with the stored records and open id (an empty id means none), no unsaved changes, and the open record's content in the editor when it exists. |
| Documents.DocumentManager.RestoreCurrentDocument | js/document.js:279-289 | The open record, if found, is loaded into the editor and the changes flag is cleared; otherwise nothing changes. |
| Documents.DocumentManager.TextChange | js/document.js:249-253 | An edit sets the unsaved-changes flag and nothing else. |
| Documents.DocumentManager.CurrentTitle | js/document.js:134-140 | The default title is empty with no open document or when no record has the open id, and otherwise the title of the first record with that id. |
| Documents.DocumentManager.SaveDocument | js/document.js:78-119 | A cancelled prompt changes nothing. Otherwise the changes flag is cleared and the prompted title is stored: into the open record, or into a new record with a fresh id that becomes the open one. Every open id still names a record. |
| Documents.DocumentManager.LoadDocument | js/document.js:164-180 | With unsaved changes and no confirmation, or for an unknown id, nothing changes. Otherwise the record opens in the editor and the changes flag is cleared. The list is never changed. |
| Documents.DocumentManager.CreateNewDocument | js/document.js:182-195 | With unsaved changes and no confirmation nothing changes. Otherwise the editor is cleared, no document is open, and there are no unsaved changes. |
| Documents.DocumentManager.DeleteDocument | js/document.js:197-216 | An unknown id or a refused confirmation changes nothing. Otherwise every record with the id is removed; if it was open, the editor is cleared and nothing is open. Every remaining open id still names a record. |
| Documents.DocumentManager.SelectDocument | js/document.js:40-48 | Choosing a record's id has `loadDocument`'s effect: unless unsaved changes are kept, the first record with that id opens and the flag clears. Choosing the placeholder has `createNewDocument`'s effect: unless unsaved changes are kept, the editor empties and nothing is open. The records never change. |
| Documents.DocumentManager.DeleteCurrent | js/document.js:33-37 | With no open document, an open id no record has, or no confirmation, nothing changes. Confirmed, the open document's records are removed, nothing is open, the editor is empty and the flag is clear. |
| Documents.DocumentManager.UpdateDropdown | js/document.js:218-247 | The placeholder first, then one (id, title) entry per record, newest first, which are a permutation of the records' pairs. The selection is the open id, or empty. |
| Documents.KeptStillFound | js/document.js:205-211 | A record not deleted is still found after a deletion. |
| Documents.EntriesMultiset | js/document.js:230-235 | Two orderings of the same records list the same entries. |
| Documents.ChoicesPermute | js/document.js:226-235 | The dropdown built from the sorted copy lists the same entries as the records. |
| Editor.LevelAt | js/editor.js:133-134 | A zoom level is defined iff the index lies in the six-step list, and then lies in [50, 200]. |
| Editor.ZoomStepsBounded | js/editor.js:119-131 | From a step in the list, both moves stay in the list; zoom in stays put iff at the last step, zoom out iff at the first. |
| Editor.ZoomInverse | js/editor.js:119-131 | Zooming in then out, or out then in, returns to the same step away from the ends. |
| Editor.ZoomLevelsIncrease | js/editor.js:7 | A higher step is a larger zoom. |
| Editor.ZoomOutOfRange | js/editor.js:119-131 | From a stored index above the list, zoom in does nothing and zoom out steps down. Below the list, zoom in steps up and zoom out does nothing. |
| Editor.EditorManager.constructor | js/editor.js:2-26 | The manager starts at the stored step (100% when none) with its level. The invariant holds iff the stored step is in range. Visibility is restored, and nothing is initialised. |
| Editor.EditorManager.LoadSettings | js/editor.js:211-240 | A stored step is taken without a range check and its level read; a stored visible flag shows the panel. |
| Editor.EditorManager.UpdateZoom | js/editor.js:133-147 | The level is the table entry at the step. |
| Editor.EditorManager.ZoomIn | js/editor.js:119-124 | The step moves up only below the last step, with the level following. The invariant is kept and nothing else changes. |
| Editor.EditorManager.ZoomOut | js/editor.js:126-131 | The step moves down only above the first step, with the level following. The invariant is kept and nothing else changes. |
| Editor.EditorManager.Initialize | js/editor.js:37-82 | Nothing happens once initialised, without the editor library, or when constructing the editor throws. Otherwise the editor exists, with a DocumentManager when that class is loaded and the auto-save listener when it is not; the zoom is applied; and the manager is initialised. |
| Editor.EditorManager.ToggleVisibility | js/editor.js:84-117 | Visibility flips. A successful first show sets the editor up as `initialize` does: the editor exists, the manager or the fallback listener is wired, and the zoom is applied. Hiding, or a show that does not set up, changes none of those. |
| Editor.EditorManager.ScheduleAutoSave | js/editor.js:149-160 | With a DocumentManager nothing is scheduled; otherwise an auto-save is pending. |
| Editor.EditorManager.SaveContent | js/editor.js:162-179 | Contents are written only when the editor exists and no DocumentManager does. |
| Editor.EditorManager.TextChange | js/editor.js:70-72 | An edit schedules an auto-save only through the fallback listener. |
| Editor.EditorManager.AutoSaveDue | js/editor.js:157-159 | The pending auto-save fires once and writes through `saveContent`. |
| Editor.NoAutoSaveWithManager | js/editor.js:149-163 | With a DocumentManager, edits, schedules and saves write nothing and leave nothing pending. |
| I18n.Translate | js/i18n.js:213-215 | The lookup returns the key itself or the table's entry, and the key whenever the table lacks it. |
| I18n.TablesSameKeys | js/i18n.js:5-116 | The Japanese and English tables have the same keys. |
| I18n.TranslateKnown | js/i18n.js:5-116 | Every key of the tables translates to its non-empty entry in both languages. |
| I18n.DataManagerKeysUntranslated | js/i18n.js:213-215 | `confirm-clear-storage` and `clear-storage-success` are in neither table and come back unchanged. |
| I18n.I18nManager.constructor | js/i18n.js:2-146 | The language is the stored one when that is `ja` or `en`, otherwise Japanese. |
| I18n.I18nManager.LoadLanguage | js/i18n.js:137-146 | A stored code is taken only when it is `ja` or `en`. |
| I18n.I18nManager.SetLanguage | js/i18n.js:156-162 | `ja` or `en` becomes the language; any other code changes nothing. The language is always one of the two. |
| I18n.I18nManager.T | js/i18n.js:213-215 | `t` gives the current table's entry for a known key and the key itself otherwise. |

## Left out

- Storage and JSON. Nothing is loaded from or saved to `localStorage` (js/app.js:198-262, 671-686; js/document.js:51-76; js/editor.js:162-244; js/i18n.js:148-154). What storage held at start-up is a parameter of the editor, document and language constructors. The timer's settings load is left out, so the timer starts from its defaults. The settings invariant relies on this: stored settings and the free-text settings inputs (js/app.js:152-179) can set values outside the step buttons' ranges.
- The page. DOM writes, CSS classes, the header clock, theme, fullscreen, the settings modal, the `updateUI` walk over translated elements (js/i18n.js:164-211) and the dropdown's option elements are out. Only the values they display are modelled.
- Sound playback. The `Audio` objects and `play()` are out; only the gate of `playSound` is modelled. The volume is kept as the slider's percentage: the source stores a fraction, and only "greater than zero" matters.
- Locale formatting. `toLocaleTimeString` for the end time, and the dated "Untitled" title, which is a parameter. The end time is kept as milliseconds.
- Time zone. `setSeconds(0, 0)` is modelled as truncation to a multiple of 60000 ms. That equals the local-time result only for a time zone whose UTC offset is a whole number of minutes.
- Timestamps. `toISOString` times are the same integer milliseconds as the clock. One `now` serves a whole handler, even where the source reads the clock twice.
- Rich-text editor. Quill is not part of this model. Editor contents are the opaque `Content`, and `getText` is a parameter.
- `handleTimeAdjustment` (js/app.js:264-281) writes to an element that `initializeElements` never defines, so the main-screen duration buttons fail; they are not modelled.
- js/data-manager.js and js/resizer.js are not part of this model.
- Concurrency. The `async` methods of `EditorManager` are modelled as running to completion. A second toggle while the editor is being set up is not modelled.
- Editor.EditorManager.Initialize: the only failure modelled is construction of the editor throwing. Any other exception inside the `try` is not modelled.
- Editor.EditorManager.LoadSettings: a stored index is an integer or absent. Non-numeric JSON values are not modelled.
- App.TimerApp.HandleKeyboard: `targetIsInput` stands for `tagName === 'INPUT'`, so text areas and selects are not ignored. Keys that only touch the page (f, t, arrows) change no timer state.
- TimerView.Progress: the bar width is a `real`, defined when the planned length is non-zero; the source's division by zero (NaN/Infinity in CSS) is not modelled.
- Documents.DocumentManager.LoadDocument: requires a non-empty id, which is all its one caller (js/document.js:40-44) passes.
- Documents.SortByRecency: stability of the sort for equal update times is built into `Insert` but not stated as a contract.
- Text.Prefix: strings are sequences of Unicode scalar values, whereas JavaScript's `substring(0, 50)` (js/document.js:149) counts UTF-16 code units. A title with characters outside the Basic Multilingual Plane keeps up to 50 such characters here where the source keeps 50 code units, and a cut through a surrogate pair, which the source can make, cannot be represented. `Documents.ExtractTitleFromContent` inherits this.
- I18n.Translate: a key absent from the table comes back unchanged. In JavaScript, `translations[lang][key] || key` returns the inherited property for names such as `toString`; the program passes only literal keys (js/i18n.js:202-210, js/data-manager.js:194-195), none of which is such a name.
- Documents.DocumentManager.SaveDocument: the unused `title` parameter of `saveDocument` is not modelled; its only callers pass none.
