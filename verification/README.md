# Multifunction clock: a Dafny model

This project models the controller of a MicroPython alarm clock with an FM
radio. Four push buttons (UP, DOWN, MODE, SET) drive three screens: TIME,
ALARM and RADIO. A 1 Hz timer redraws the screen and polls the alarm. The
alarm can be snoozed with shrinking intervals and reset to the time it was
set for. Each button is behind a software debounce filter. Two small web
servers let a browser set the time, the alarm, the display format and the
mode. A serial bench test drives the radio's volume and mute with `=` and `-`.

The model is functional. The controller object is one immutable record,
`Clock.ClockState`, and every event (a button, a timer tick, a web request,
a console character) is a pure function from state to state. Hardware is
passed in as data:

- the real-time clock is a fresh `Rtc.DateTime` reading given with each event, web requests included (`ConfigServer.Request` pairs a path with the reading taken while it is served);
- the radio is an optional `Tuner.Radio` record (`None` when it did not answer at power-on);
- the debounce filter gets the microsecond tick reading and the pin level as arguments.

An exception that the source does not catch is modelled by the value the
caller sees:

- a button handler or redraw that raises draws no frame (`Clock.Step.frame == None`);
- a web request that raises ends the server loop (`ConfigServer.Reply.Halt`);
- a malformed query or number is `None`.

Modules, following the source files:

- `Alarm`, `Controls`, `Display`, `Clock` and `Tuner` model `clock.py`.
- `Debounce` models `debounced_button.py`.
- `Query` models the request-path and query-string reading shared by both servers.
- `ConfigServer` models `webapp.py`, the access-point server.
- `TimeFormServer` models `web_app.py`, the earlier station-mode server.
- `RadioConsole` models `radio_test.py`.
- `Util`, `Text`, `Rtc` and `Arith` hold the shared pieces: `str.split`, `int()`, `{:02d}`, `str.upper()`, the date tuple and wheel arithmetic.

Behaviour of the code that the model reproduces and that is easy to misread:

- The set-alarm and set-time handlers store the numbers they are given. They do not reduce them modulo 24 or 60 and do not check ranges. `ConfigServer.OutOfRangeAlarmNeverFires` shows the consequence: an alarm set to hour 24 or later reads as switched on but can never fire.
- The snooze lengths 10, 5, 3, 2, 2, 1, 1, ... are non-increasing (`Alarm.SnoozeMinutesNonIncreasing`).
- The bound `edit_field < field count of the mode` holds only while editing, and only on the button path. Leaving edit mode keeps the cursor, so the buttons can reach RADIO with the cursor on field 2 (`Clock.CursorOutsideEditing`). `/set_mode` changes the mode without leaving edit mode. So a TIME format edit followed by a switch to RADIO makes the next redraw index past the radio captions and fail (`ConfigServer.SetModeBreaksCursor`).
- `/set_mode` on a clock without a radio stores the new mode first. The mute call then raises, and the route answers 400 with the mode already changed.
- The MODE hint still reads "MODE" or "NEXT" while a snooze is pending, yet the button resets the alarm (`Clock.HintBarHidesSnoozeReset`).

## Model

| member | source | states |
|---|---|---|
| Util.Split | webapp.py:75-77 | `str.split` on one character: joining the pieces with the separator gives the text back, and no piece contains the separator |
| Util.SplitJoin | webapp.py:75-77 | splitting undoes joining when no piece holds the separator |
| Util.SplitCountsSeparator | webapp.py:75 | the separator occurs exactly when the split yields two or more pieces, which is when `[1]` does not raise |
| Util.Clamp | webapp.py:220 | `max(lo, min(hi, x))` lies in `[lo, hi]`, equals `x` inside it and the nearer end outside it |
| Text.Pad2 | clock.py:82-83 | `{:02d}` is two characters that read back as the number for 0..99, plain digits from 10 on, and `str(n)` for negatives |
| Text.ParseIntRoundTrip | webapp.py:79-81 | `int(str(n)) == n` for every integer |
| Text.ParseInt | webapp.py:79-81 | MicroPython's one-argument `int()` (base 0): an accepted text is at least one character, and everything after its first character is letters, digits and underscores; a value is negative only with a leading `-`, and never negative without one; a plain decimal run always reads as its decimal value |
| Text.ParseIntPrefixed | webapp.py:79-81 | `0x`, `0o` and `0b` in either case, with or without a minus sign in front, switch the digits after them to base 16, 8 or 2 |
| Text.ParseIntRejects | webapp.py:79-81 | the empty value, a lone sign, a doubled sign, a trailing letter, a trailing space, a prefix with no digits (`0x`) and a digit beyond the base (`0b2`) are refused |
| Text.ParseIntAccepts | webapp.py:79-81 | a leading zero, a plus sign and a minus sign are accepted; underscores are skipped wherever they stand (`_7`, `7_`, `1__0` read 7, 7 and 10) and `_` alone reads 0; `0x1F`, `-0o17` and `0b1_0` read 31, -15 and 2 |
| Text.ParseIntLeadingUnderscore | webapp.py:79-81 | an underscore in front of any number's digits leaves its value unchanged |
| Text.Upper | webapp.py:190 | `str.upper()` keeps the length and upper-cases each ASCII letter in place |
| Text.UpperIdempotent | webapp.py:190 | the result has no lower-case letter, so upper-casing twice is upper-casing once |
| Rtc.WithTimeOfDay | webapp.py:84-88 | tuple indices 4, 5 and 6 are replaced; year, month, day, weekday and subsecond are kept |
| Tuner.PowerOn | clock.py:24-30 | the radio starts at volume 0 and muted |
| Tuner.SetMute | clock.py:126-128 | `update_radio(mute=...)` sets the mute flag and changes nothing else |
| Tuner.StepVolume | clock.py:122-123 | a volume step is clamped to `[0, VOLUME_MAX]`, exact inside it, and leaves mute and the seek log alone |
| Tuner.Seek | clock.py:114-121 | a seek is appended to the seek log; volume and mute are untouched |
| Tuner.StepVolumeSaturates | clock.py:122-123 | `n` single steps up or down from an in-range volume reach `min(4, v + n)` or `max(0, v - n)` |
| Tuner.StepVolumeUpDown | clock.py:122-123 | a step up then a step down is the identity below the top |
| Controls.Next | clock.py:245-248 | MODE moves to a different screen |
| Controls.NextCycles | clock.py:245-248 | two presses do not return, three presses go round TIME, ALARM, RADIO back to the start |
| Controls.FieldCount | clock.py:242-243 | TIME and ALARM have three editable fields, RADIO two |
| Controls.ModeFromName | webapp.py:191 | only the three capitalised names are accepted, and each names its own mode |
| Controls.ModeNameRoundTrip | webapp.py:191 | every mode's name is accepted as that mode |
| Controls.Mask | clock.py:12-15 | each button's mask is one of the four single bits |
| Controls.MaskInjective | clock.py:12-15 | two buttons have the same mask exactly when they are the same button |
| Alarm.Check | clock.py:296-304 | the alarm starts ringing exactly when enabled, not ringing, and the reading is second 0 of the alarm minute; otherwise nothing changes; a firing not after a snooze records the original time and clears the count, a firing after a snooze keeps them |
| Alarm.CheckOnceRinging | clock.py:298 | while ringing, polling again with any reading changes nothing |
| Alarm.SnoozeMinutes | clock.py:290 | a snooze lasts between 1 and 10 minutes, and 1 minute from the sixth snooze on |
| Alarm.SnoozeMinutesValues | clock.py:290 | the first six snoozes last 10, 5, 3, 2, 2 and 1 minutes |
| Alarm.SnoozeMinutesNonIncreasing | clock.py:290 | a later snooze is never longer than an earlier one |
| Alarm.Advance | clock.py:291-293 | the new hour and minute lie on the wheel and are the old minute of the day plus `k`, modulo one day |
| Alarm.Snooze | clock.py:282-293 | a snooze stops the ringing, marks the alarm snoozed, counts one more, and moves the effective time forward by that snooze's length on the wheel; the original time and the enabled flag stay |
| Alarm.Reset | clock.py:270-276 | a reset clears both flags and the count and puts the effective time back at the original |
| Alarm.ResetAbsorbsSnooze | clock.py:270-293 | a snooze does not change what a reset returns to, and a reset is idempotent |
| Alarm.SetTime | webapp.py:104-108 | the given time becomes both the effective and the original time, as given; the alarm is switched on; ringing, snooze flag and count are untouched |
| Alarm.ResetAfterSetTime | webapp.py:104-108 | after a set-alarm, a reset returns to the newly set time |
| Alarm.NudgeHour | clock.py:107-108 | the ALARM hour edit changes only the effective hour, to `(hour + delta) mod 24` |
| Alarm.NudgeMinute | clock.py:109-110 | the ALARM minute edit changes only the effective minute, to `(minute + delta) mod 60` |
| Alarm.ToggleEnabled | clock.py:111-112 | the on/off edit flips the enabled flag and nothing else |
| Alarm.NudgeHourWheel | clock.py:107-108 | `n` hour edits of `delta` add `n * delta` on the 24-hour wheel and touch nothing else |
| Alarm.NudgeHourClosure | clock.py:107-108 | 24 hour edits in one direction bring the alarm back to where it was |
| Alarm.NudgeMinuteUpDown | clock.py:109-110 | UP then DOWN on the alarm minute is the identity on in-range minutes |
| Alarm.EpisodeKeepsOriginal | clock.py:300-304 | once ringing or snoozed, any polls, snoozes and edits keep the episode open, never move the original time, and count exactly the snoozes |
| Alarm.ResetRestoresEpisodeStart | clock.py:270-276 | after a fresh firing and any mix of snoozes, re-firings and edits, a reset returns to the time of the first firing; the count equals the number of snoozes |
| Alarm.SnoozeTimesOffset | clock.py:290-293 | `n` snoozes in a row count `n` and move the alarm by the sum of their lengths on the wheel |
| Alarm.SnoozeMovesAlarm | clock.py:290-293 | a snooze always moves the effective alarm time |
| Alarm.SnoozeExample | clock.py:290-293 | an alarm that rang at 06:58 snoozes to 07:08, then 07:13, then 07:16 |
| Display.Hour12 | clock.py:86 | `hour % 12 or 12` is in 1..12 and agrees with the hour modulo 12 |
| Display.FormatTime | clock.py:79-89 | an in-range time is 5 characters, 3 more with seconds and 3 more on the 12-hour dial, with `:` in columns 2 and 5; the 12-hour text always ends with ` AM` or ` PM` by the hour |
| Display.FormatTime24ReadsBack | clock.py:80-83 | an in-range time in 24-hour form is `HH:MM` or `HH:MM:SS`, and each number reads back from its columns |
| Display.FormatTime12ReadsBack | clock.py:84-89 | in 12-hour form the text starts with the dial hour and minute and ends with ` AM` exactly before noon, otherwise ` PM` |
| Display.FormatTime24Injective | clock.py:80-83 | distinct in-range times give distinct 24-hour texts |
| Display.EditLabels | clock.py:168 | each screen has one edit caption per editable field |
| Display.EditCaption | clock.py:169 | the caption lookup succeeds exactly when the cursor is below the screen's field count |
| Display.SignalBars | clock.py:209 | the bar count lies in 0..4; it is 4 exactly from strength 70 and 0 exactly below 17.5 |
| Display.SignalBarsBuckets | clock.py:209 | bar count `k` is shown exactly for strengths in `[17.5 k, 17.5 (k + 1))` |
| Display.SignalBarsMonotone | clock.py:209 | a stronger signal never shows fewer bars |
| Display.HintBar | clock.py:327-339 | the four hint labels: blank/blank/MODE/SET by default, UP/DOWN/NEXT/DONE while editing, and RST/SNOZ in the last two slots while ringing, whatever the editing flag |
| Display.Highlight | clock.py:341-348 | exactly the slot whose mask equals the last button's mask is underlined, and none when no button is recorded |
| Display.ButtonsEnabled | clock.py:330-332 | the pushable mask is MODE and SET, plus UP and DOWN while editing |
| Clock.Init | clock.py:19-62 | power-on is TIME, not editing, cursor 0, 24-hour format, the 07:00 alarm disabled, and a present radio at volume 0 and muted |
| Clock.MuteRadio | clock.py:126-128 | a present radio gets the mute flag, an absent one is skipped, nothing else changes |
| Clock.ResetAlarm | clock.py:270-279 | resets the alarm, clears the panel inversion, mutes the radio, and keeps the volume and everything else |
| Clock.SnoozeAlarm | clock.py:282-293 | snoozes the alarm, clears the panel inversion, mutes the radio, and keeps the volume and everything else |
| Clock.ButtonMode | clock.py:237-253 | with a live alarm MODE only resets it (screen, editing and cursor kept); while editing it advances the cursor modulo the field count; otherwise it moves round the ring, muting when leaving RADIO, unmuting when entering it, and leaving mute alone otherwise |
| Clock.ButtonSet | clock.py:255-268 | while ringing SET only snoozes (editing, screen and cursor kept); otherwise it enters editing on field 0 or leaves editing, publishing the matching button mask |
| Clock.AdjustValue | clock.py:95-124 | per screen and field: TIME hour or minute on its wheel with seconds zeroed, TIME format flipped without writing the clock, ALARM edits on the effective time or the enabled flag only, RADIO seek or clamped volume with unmute; it fails exactly when RADIO fields 0 or 1 are edited without a radio |
| Clock.Dispatch | clock.py:229-235 | UP and DOWN do nothing unless editing, and adjust the field under the cursor by +1 or -1 while editing; MODE and SET run their handlers |
| Clock.Captioned | clock.py:167-169 | a screen's caption lookup fails exactly when a caption is shown and the cursor is past the screen's fields |
| Clock.Screen | clock.py:161-212 | the draw fails exactly when the screen shows a caption and the cursor is past its fields; the radio screen shows the signal bars of the current strength |
| Clock.Render | clock.py:141-158 | a redraw polls the alarm; while ringing it flips the inversion and unmutes; it keeps screen, editing, cursor, format and clock; a completed redraw shows the hint bar and highlight, publishes the pushable mask and clears the last button |
| Clock.HandleButton | clock.py:215-227 | a drawn frame underlines the pressed button and clears it; with no frame the press stays recorded; a press outside editing always draws; UP or DOWN on a RADIO frequency or volume edit without a radio raises, so no frame is drawn and only the press and the reading are stored; every press but a TIME edit off the format field leaves the fresh reading in place |
| Clock.PressOutcomes | clock.py:229-268 | UP or DOWN outside editing keep screen, cursor and format and only poll the alarm; MODE on a live alarm resets it in place; MODE while editing advances the cursor modulo the field count, otherwise moves to the next screen; SET while ringing snoozes in place, otherwise enters editing on field 0 or leaves it |
| Clock.DispatchKeeps | clock.py:215-268 | no handler touches the recorded button, and only a TIME edit off the format field rewrites the clock reading |
| Clock.TimerTick | clock.py:141-158 | a tick stores the reading and polls the alarm against it; screen, editing, cursor and format stay; while ringing the inversion flips, otherwise inversion and radio stay; it fails exactly when a caption is due past the screen's fields; a drawn frame highlights the last press, clears it and shows the hint bar for the new alarm state |
| Clock.GetTime | clock.py:91-93 | the reading is written `HH:MM:SS` in 24-hour form whatever the display format, and an in-range reading reads back from its columns |
| Clock.InitWellFormed | clock.py:19-62 | power-on satisfies the controller bounds |
| Clock.RenderWellFormed | clock.py:141-158 | on a well-formed state every redraw completes and keeps the bounds |
| Clock.DispatchWellFormed | clock.py:215-268 | every handler keeps the bounds; it fails exactly for UP or DOWN while editing RADIO without a radio |
| Clock.HandleButtonWellFormed | clock.py:215-227 | a press keeps the bounds and draws a frame unless it edits RADIO without a radio |
| Clock.RunWellFormed | clock.py:95-124 | under any sequence of presses and ticks, the cursor stays below the field count while editing, hours in [0, 24), minutes in [0, 60) and the volume in [0, 4] |
| Clock.PowerOnRunWellFormed | clock.py:19-62 | the bounds hold from power-on after any sequence of presses and ticks |
| Clock.ModeRingRoundTrip | clock.py:244-253 | with the radio muted exactly off RADIO, MODE keeps that rule, and three MODE presses restore the whole state |
| Clock.CursorWalk | clock.py:241-243 | `n` MODE presses while editing move the cursor `n` fields on, modulo the field count |
| Clock.CursorOutsideEditing | clock.py:255-268 | the buttons can leave editing on field 2 and reach RADIO with the cursor past its two fields; no caption is drawn there and SET puts the cursor back on 0 |
| Clock.SetTwice | clock.py:259-268 | SET twice without a ringing alarm restores the editing flag with the cursor on field 0 |
| Clock.HintBarPredictsSet | clock.py:337-339 | the SET slot reads SNOZ exactly when SET will snooze, DONE when it will leave editing, SET when it will enter editing |
| Clock.HintBarPredictsReset | clock.py:337-338 | RST in the MODE slot means MODE resets the alarm and keeps the screen |
| Clock.HintBarHidesSnoozeReset | clock.py:237-240 | during a pending snooze the MODE slot reads MODE or NEXT, yet MODE resets the alarm and keeps screen and cursor |
| Clock.TimeHourUpDown | clock.py:98-105 | UP then DOWN on the TIME hour restores the reading with seconds and subseconds zeroed |
| Clock.VolumeEditSaturates | clock.py:122-123 | one volume edit moves the volume one step and stops at 0 and 4 |
| Debounce.New | debounced_button.py:4-9 | construction records the window (5000 µs by default), the construction time and the current level |
| Debounce.Handler | debounced_button.py:12-20 | an edge inside the window or at the stored level changes nothing; an accepted edge stores its level and time; the callback runs exactly on an accepted edge to level 0 |
| Debounce.FiresAfter | debounced_button.py:14-20 | after a press, the next press is at least two windows later, and so is every one after it |
| Debounce.FiresSpaced | debounced_button.py:14-20 | any two successive callbacks are at least two debounce windows apart |
| Debounce.BouncingPresses | debounced_button.py:14-20 | a press with contact chatter inside the window, a release and a second press 20 ms after the first report exactly two presses |
| Debounce.QuietAfterConstruction | debounced_button.py:8 | no edge within the first window after construction is seen or changes the filter |
| Debounce.QuietWindow | debounced_button.py:14 | edges inside the current window report nothing and leave the filter unchanged |
| Query.PairOf | webapp.py:77 | a piece gives a key and value exactly when it contains `=`, and neither contains `=` |
| Query.PairsOf | webapp.py:76-77 | the pairs exist exactly when every piece has `=`; they are the pieces' pairs in order |
| Query.ToMap | webapp.py:77 | the dictionary holds exactly the keys of the pairs |
| Query.ToMapLastWins | webapp.py:77 | a key maps to the value of its last occurrence |
| Query.Params | webapp.py:75 | the parameter text exists exactly when the path has a `?` and contains no `?` |
| Query.ParseQuery | webapp.py:75-77 | the dictionary exists exactly when the path has a `?` and every `&`-piece has an `=`, and it is built from those pieces in order |
| Query.PairRoundTrip | webapp.py:77 | `k=v` with clean `k` and `v` reads back as `(k, v)` |
| Query.ParamsAfterRoute | webapp.py:75 | the text after a route's `?` is read back when it holds no `?` |
| Query.PairsOfEncoded | webapp.py:76-77 | the encoded pieces of clean pairs read back as those pairs |
| Query.ParseQueryRoundTrip | webapp.py:75-77 | a form built from clean pairs parses back to the dictionary of its pairs |
| Query.ParseQueryNeedsPairs | webapp.py:76-77 | parameters with a piece that has no `=`, empty parameters included, fail as a whole |
| Query.PairCutAtSecond | webapp.py:77 | a piece with two `=` keeps only the text between them as its value |
| Query.ParseQueryRepeatedKey | webapp.py:75-77 | a repeated key keeps its last value |
| Query.RequestPath | webapp.py:119-124 | the path is one word with no space |
| Query.RequestPathOfLine | webapp.py:122 | the path is the second word of the request line |
| Query.RequestPathShort | webapp.py:123-124 | a request of fewer than two words is served as `/` |
| Query.IntField | webapp.py:79-81 | a field is read exactly when the key is present and its value parses, and then it is the parsed value |
| Query.TimeFields | webapp.py:79-81 | the set-time numbers exist exactly when the query parses and `h`, `m` and `s` all parse, and then they are those values |
| Query.FormValue | webapp.py:75-77 | in a form with distinct clean keys each key reads back its own value |
| Query.TimeFormQuery | webapp.py:75-77 | the set-time form's query reads back `h`, `m` and `s` |
| Query.TimeFormFields | webapp.py:79-81 | the set-time form's numbers read back exactly |
| ConfigServer.Classify | webapp.py:128-236 | a route is chosen only for a path starting with its prefix |
| ConfigServer.ClassifyPrefixed | webapp.py:128-236 | every path built on a route's prefix reaches that route, whatever follows |
| ConfigServer.SetTime | webapp.py:70-91 | only the clock reading changes, and only hour, minute and second, to the parsed values as given; any failure changes nothing |
| ConfigServer.AlarmFields | webapp.py:95-102 | the alarm numbers exist exactly when the query parses and `h` and `m` both parse |
| ConfigServer.SetAlarm | webapp.py:93-111 | only the alarm changes: the set-alarm of the parsed time, or nothing when parsing fails |
| ConfigServer.RequestedMode | webapp.py:190-191 | a requested mode is the one whose name is the upper-cased `mode` value (empty when absent) |
| ConfigServer.SetMode | webapp.py:185-204 | the reply is 200 or 400; 200 happens exactly with a radio, a parsed query and a known name, and then the radio is muted exactly off RADIO; a 400 leaves the radio alone; the mode becomes the requested one whenever the query names one, radio or not, and a query without a known name is a 400 that changes nothing |
| ConfigServer.CurrentSettings | webapp.py:168-182 | the settings report the reading, the format, the effective alarm time, the alarm switch and the volume |
| ConfigServer.Index | webapp.py:26-36 | the index page shows the reading, the alarm switch and the original alarm time in the display format |
| ConfigServer.RadioButton | webapp.py:205-230 | a seek or volume button raises exactly when there is no radio, and then changes nothing; otherwise it redirects to `/#RADIO` and changes the radio alone: a seek is logged with the volume kept, and a volume step moves one level clamped to 0..`VOLUME_MAX` with the seeks kept; the mute is kept either way |
| ConfigServer.Handle | webapp.py:128-236 | a handler raises exactly when it needs the radio and there is none, and then changes nothing; it never touches the editing cursor, the button bookkeeping or the panel; each field changes only on its own routes |
| ConfigServer.Route | webapp.py:128-236 | the same for one request served at a given reading: the state handled carries that reading, which only `/set_time` rewrites |
| ConfigServer.Serve | webapp.py:117-236 | over any sequence of requests the loop never touches the editing cursor, the button bookkeeping or the panel, and never gains or loses the radio; no requests change nothing |
| ConfigServer.ToggleFormatFlips | webapp.py:128-133 | one `/toggle_format...` request flips the display format, changes nothing else and redirects to `/` |
| ConfigServer.ToggleFormatTwice | webapp.py:128-133 | two format toggles are the identity, up to the clock reading |
| ConfigServer.AlarmSwitchIdempotent | webapp.py:152-165 | enabling or disabling sets only the flag, and doing it twice equals doing it once |
| ConfigServer.VolumeRoutes | webapp.py:219-230 | volume up adds one below the top and keeps the mute; volume down undoes it |
| ConfigServer.SettingsShowSnoozedAlarm | webapp.py:168-177 | after a snooze the settings report the moved alarm time while the index page shows the original |
| ConfigServer.RouteGetSettings | webapp.py:168-182 | `/get_settings` with a radio changes nothing and reports the settings with the time of the reading taken for the request |
| ConfigServer.RouteIndex | webapp.py:26-36 | `/` changes nothing and serves the index page with the time of the reading taken for the request |
| ConfigServer.SetTimeRoundTrip | webapp.py:136-141 | a submitted set-time form writes exactly its three numbers into the reading taken for the request, keeping its date, and redirects to the TIME tab |
| ConfigServer.AlarmFormQuery | webapp.py:95-97 | the set-alarm form's query reads back `h` and `m` |
| ConfigServer.AlarmFormFields | webapp.py:101-102 | the set-alarm form's numbers read back exactly |
| ConfigServer.SetAlarmRoundTrip | webapp.py:144-149 | a submitted set-alarm form sets both alarm times, switches the alarm on and redirects to the ALARM tab |
| ConfigServer.OutOfRangeAlarmNeverFires | webapp.py:101-108 | an alarm hour of 24 or more is stored as given, reads as on, and no valid reading fires it |
| ConfigServer.ModeFormQuery | webapp.py:187-189 | the mode form's query is exactly the `mode` key and its value |
| ConfigServer.ModeFormRoute | webapp.py:185 | the mode form reaches the set-mode route |
| ConfigServer.RouteSetMode | webapp.py:185-203 | a set-mode request whose query holds only `mode`: an unknown name is a 400 with no change; a known one is stored, then without a radio the request is a 400 and otherwise the radio is muted unless the mode is RADIO |
| ConfigServer.SetModeAccepts | webapp.py:190-198 | any spelling of a mode name is accepted, and the radio is muted exactly when the new mode is not RADIO |
| ConfigServer.SetModeRejects | webapp.py:199-200 | a name outside the whitelist is a 400 and changes nothing |
| ConfigServer.SetModeBreaksCursor | webapp.py:190-196 | switching to RADIO while editing the TIME format leaves the cursor past the radio fields, and the next redraw fails |
| ConfigServer.RouteKeepsVolume | webapp.py:219-229 | a single request leaves an in-range volume in [0, 4] |
| ConfigServer.ServeKeepsVolume | webapp.py:219-230 | over any request sequence the volume stays in [0, 4] |
| TimeFormServer.To24 | web_app.py:95-99 | with format `12`, a PM hour below 12 moves up by 12 and 12 AM becomes 0; every other case keeps the hour |
| TimeFormServer.To24InvertsDisplay | web_app.py:95-99 | the conversion reads back the hour the 12-hour display shows with its meridiem |
| TimeFormServer.DisplayInvertsTo24 | web_app.py:95-99 | every dial hour 1..12 with AM or PM converts to an hour of the day whose display shows them again |
| TimeFormServer.To24Injective | web_app.py:95-99 | distinct dial hours or meridiems convert to distinct hours |
| TimeFormServer.Get | web_app.py:89-90 | `query.get(key, default)` gives the value when present and the default otherwise |
| TimeFormServer.SetTime | web_app.py:75-109 | only the reading and the stored meridiem change; a failed parse changes nothing; the meridiem defaults to AM and the hour is converted with format default `24` |
| TimeFormServer.DefaultFormatVerbatim | web_app.py:89 | without a format field the hour is written as given |
| TimeFormServer.Index | web_app.py:41-52 | the index page shows the reading, the format checkbox and the format flag as `true` or `false` |
| TimeFormServer.Route | web_app.py:133-151 | a request is served at a given reading; set-time and set-format requests answer with the index page; `/set_format?format=24...` selects 24-hour, any other `/set_format...` 12-hour; any other path changes nothing but the reading and is answered with the index page for `/`, `/on?` and `/off?` and with the file it names otherwise |
| TimeFormServer.TwelveHourFormQuery | web_app.py:82-90 | the 12-hour form's query reads back all five fields |
| TimeFormServer.TwelveHourFormRoundTrip | web_app.py:75-106 | the 12-hour form submitted with the displayed hour and meridiem sets the clock to that hour of the day |
| TimeFormServer.SetFormatRoute | web_app.py:136-141 | the format form with `24` selects the 24-hour display, with `12` the 12-hour one, and shows the index page |
| RadioConsole.Step | radio_test.py:47-60 | `=` unmutes if muted, else raises the volume below 15; `-` lowers a positive volume, else mutes; other commands change nothing |
| RadioConsole.RunInRange | radio_test.py:47-60 | any command sequence keeps an in-range volume in [0, 15] |
| RadioConsole.StartInRange | radio_test.py:15-16 | from the start-up volume 1, every command sequence keeps the volume in [0, 15] |
| RadioConsole.UpSaturates | radio_test.py:51-53 | `n` presses of `=` while playing reach `min(15, v + n)` |
| RadioConsole.DownMutes | radio_test.py:54-60 | `n` presses of `-` reach `v - n`, or volume 0 and muted once they pass 0 |
| RadioConsole.StartLadder | radio_test.py:15-60 | from start-up, 14 presses of `=` reach 15 and 16 presses of `-` then reach silence |
| RadioConsole.DownUp | radio_test.py:47-60 | `-` then `=` is the identity while playing, and unmutes one step lower when muted above 0 |

## Left out

- Drawing: text positions, rectangles, underline lines, `fill` and `show` are not modelled. The model keeps the text lines, the bar count, the hint labels, the highlighted slot and the panel's inversion state (`displayInverted`, shown as `Frame.inverted`).
- Hardware set-up is not modelled: the radio and RTC drivers, the RTC fallback and first-boot time copy, the LED, and the timers. The RTC is an input reading and the radio an optional record.
- `radio_status` only refreshes cached copies of driver values and is not modelled. The seek commands are kept as an ordered log, because where a seek lands is up to the receiver.
- The radio frequency is a floating-point value and is not modelled. This affects the RADIO screen's frequency line, the `radio_frequency` settings field and the console's frequency printout.
- Sockets, the access point, HTTP header writing and reading files from flash are not modelled. A reply is a value naming what is sent (redirect location, settings, 200/400, index page fields, or file path). The `{time}` substitution in JavaScript files and the 404 fallback are not modelled.
- The LED branch of `web_app.py` (lines 143-149) compares the whole request text with a path and so never runs. It is not modelled.
- Concurrency between the button interrupts, the 1 Hz timer and the web loop is not modelled. Each event is one atomic step.
- Debug and help printing is not modelled.
- The browser script and the start-up wiring in `main.py` are not modelled.
- Debounce.Handler: ticks are unbounded integers, so the wrap-around of `ticks_us` is not modelled. The source subtracts raw tick values.
- Text.ParseInt: `int()` also skips white space around the number. It cannot reach it here, because a path cut out of the request text by `split()` holds no white space.
- Query.RequestPath: only the space is treated as white space. `str()` of the received bytes writes every other white-space byte as an escape.
- Clock.HandleButton: an unknown button name is not modelled, because the four buttons are the only callers.
- ConfigServer.CurrentSettings: the `radio_frequency` field is omitted, because it is a float.
- Clock.Screen: the RADIO screen's frequency line is omitted, because it is a float.
