/** The clock controller: one immutable record for everything the
    firmware keeps on its controller object, and one pure function per
    event. A button event runs the button's handler and then redraws, and
    the 1 Hz timer event only redraws. Every redraw first polls the alarm. */
module Clock {
  import opened Util
  import opened Text
  import opened Rtc
  import opened Tuner
  import opened Controls
  import opened Alarm
  import opened Display

  /** `rtc` is the last clock reading (the clock itself runs on; each event
      brings a fresh reading). `invertFlag` is the controller's flashing
      flag and `displayInverted` what the panel actually shows: a reset or
      snooze clears the panel but not the flag. `amPm` is the attribute the
      12-hour time form stores; it is absent until that form is used. */
  datatype ClockState = ClockState(
    mode: Mode, editing: bool, editField: nat, format24: bool,
    alarm: AlarmState, radio: Option<Radio>, rtc: DateTime,
    invertFlag: bool, displayInverted: bool,
    lastButton: Option<Button>, buttonsEnabled: int,
    amPm: Option<string>)

  /** The mode-specific text lines, in drawing order, and the signal bar
      count when the radio screen shows one. */
  datatype ScreenText = ScreenText(lines: seq<string>, bars: Option<int>)

  /** One finished redraw. `highlight` is the underlined hint slot. */
  datatype Frame = Frame(
    inverted: bool, lines: seq<string>, bars: Option<int>,
    hints: seq<string>, highlight: Option<nat>)

  /** The state after an event, and the frame it drew; no frame means the
      handler or the redraw raised an exception part way through. */
  datatype Step = Step(state: ClockState, frame: Option<Frame>)

  /** Power-on: TIME screen, not editing, 24-hour format, the 07:00 alarm
      disabled, and the radio (when it answered) at volume 0 and muted. */
  function Init(now: DateTime, radio: Option<Radio>): (s: ClockState)
    ensures s.mode == TimeMode && !s.editing && s.editField == 0 && s.format24
    ensures s.alarm == Alarm.Initial && s.rtc == now
    ensures s.radio.Some? <==> radio.Some?
    ensures s.radio.Some? ==> s.radio.value.volume == 0 && s.radio.value.muted
  {
    ClockState(
      TimeMode, false, 0, true,
      Alarm.Initial, if radio.Some? then Some(PowerOn(radio.value)) else None, now,
      false, false, None, 0, None)
  }

  /** `update_radio(mute=on)` when there is a radio; nothing otherwise. */
  function MuteRadio(s: ClockState, on: bool): (r: ClockState)
    ensures r.radio.Some? <==> s.radio.Some?
    ensures r.radio.Some? ==> r.radio.value == SetMute(s.radio.value, on)
    ensures r == s.(radio := r.radio)
  {
    if s.radio.Some? then s.(radio := Some(SetMute(s.radio.value, on))) else s
  }

  /** An alarm is live while it rings or while a snooze is pending. */
  predicate AlarmLive(s: ClockState) {
    s.alarm.triggered || s.alarm.snoozed
  }

  /** `reset_alarm`: ends the episode, clears the panel inversion and mutes. */
  function ResetAlarm(s: ClockState): (r: ClockState)
    ensures r.alarm == Reset(s.alarm) && !r.displayInverted
    ensures r.radio.Some? <==> s.radio.Some?
    ensures r.radio.Some? ==> r.radio.value.muted && r.radio.value.volume == s.radio.value.volume
    ensures r == s.(alarm := r.alarm, displayInverted := false, radio := r.radio)
  {
    MuteRadio(s.(alarm := Reset(s.alarm), displayInverted := false), true)
  }

  /** `snooze_alarm`: snoozes, clears the panel inversion and mutes. */
  function SnoozeAlarm(s: ClockState): (r: ClockState)
    ensures r.alarm == Snooze(s.alarm) && !r.displayInverted
    ensures r.radio.Some? <==> s.radio.Some?
    ensures r.radio.Some? ==> r.radio.value.muted && r.radio.value.volume == s.radio.value.volume
    ensures r == s.(alarm := r.alarm, displayInverted := false, radio := r.radio)
  {
    MuteRadio(s.(alarm := Snooze(s.alarm), displayInverted := false), true)
  }

  /** The MODE button. A live alarm turns it into RESET; while editing it
      moves the cursor to the next field of the screen; otherwise it moves
      round the screen ring, muting the radio when leaving RADIO and
      unmuting it when entering RADIO. */
  function ButtonMode(s: ClockState): (r: ClockState)
    ensures AlarmLive(s) ==> r == ResetAlarm(s)
    ensures AlarmLive(s) ==> r.mode == s.mode && r.editing == s.editing && r.editField == s.editField
    ensures !AlarmLive(s) && s.editing ==>
      r == s.(editField := (s.editField + 1) % FieldCount(s.mode))
    ensures !AlarmLive(s) && !s.editing ==>
      r == s.(mode := Next(s.mode), radio := r.radio)
    ensures !AlarmLive(s) && !s.editing && s.radio.Some? ==>
      r.radio.Some? && r.radio.value == SetMute(s.radio.value,
        if s.mode == RadioMode then true
        else if Next(s.mode) == RadioMode then false
        else s.radio.value.muted)
    ensures s.radio.None? ==> r.radio.None?
  {
    if AlarmLive(s) then ResetAlarm(s)
    else if s.editing then s.(editField := (s.editField + 1) % FieldCount(s.mode))
    else
      var entered := s.(mode := Next(s.mode));
      if s.mode == RadioMode then MuteRadio(entered, true)
      else if entered.mode == RadioMode then MuteRadio(entered, false)
      else entered
  }

  /** The SET button. A ringing alarm turns it into SNOOZE; otherwise it
      enters editing (cursor on the first field) or leaves it. */
  function ButtonSet(s: ClockState): (r: ClockState)
    ensures s.alarm.triggered ==> r == SnoozeAlarm(s)
    ensures s.alarm.triggered ==> r.editing == s.editing && r.mode == s.mode && r.editField == s.editField
    ensures !s.alarm.triggered && !s.editing ==>
      r == s.(editing := true, editField := 0, buttonsEnabled := ButtonsEnabled(true))
    ensures !s.alarm.triggered && s.editing ==>
      r == s.(editing := false, buttonsEnabled := ButtonsEnabled(false))
  {
    if s.alarm.triggered then SnoozeAlarm(s)
    else if !s.editing then s.(editing := true, editField := 0, buttonsEnabled := 15)
    else s.(editing := false, buttonsEnabled := 3)
  }

  /** `adjust_value`: applies an UP (`delta = 1`) or DOWN (`delta = -1`) to
      the field under the cursor. TIME hour and minute edits write the
      clock back with seconds and subseconds zeroed; the TIME format edit
      only flips the format. ALARM edits touch only the effective alarm
      time or the enabled flag. RADIO edits seek or step the volume (which
      also unmutes). `None` is the exception raised when the radio screen
      is edited without a radio. */
  function AdjustValue(s: ClockState, field: nat, delta: int): (r: Option<ClockState>)
    ensures r.None? <==> s.mode == RadioMode && s.radio.None? && field < 2
    ensures s.mode == TimeMode && field == 2 ==> r == Some(s.(format24 := !s.format24))
    ensures s.mode == TimeMode && field != 2 ==>
      && r.Some? && r.value == s.(rtc := r.value.rtc)
      && r.value.rtc == s.rtc.(
        hour := if field == 0 then (s.rtc.hour + delta) % 24 else s.rtc.hour,
        minute := if field == 1 then (s.rtc.minute + delta) % 60 else s.rtc.minute,
        second := 0, subsecond := 0)
    ensures s.mode == AlarmMode ==>
      && r.Some? && r.value == s.(alarm := r.value.alarm)
      && r.value.alarm.originalHour == s.alarm.originalHour
      && r.value.alarm.originalMinute == s.alarm.originalMinute
      && r.value.alarm == (
        if field == 0 then NudgeHour(s.alarm, delta)
        else if field == 1 then NudgeMinute(s.alarm, delta)
        else if field == 2 then ToggleEnabled(s.alarm)
        else s.alarm)
    ensures s.mode == RadioMode && r.Some? ==> r.value == s.(radio := r.value.radio)
    ensures s.mode == RadioMode && s.radio.Some? && field == 0 ==>
      r == Some(s.(radio := Some(Seek(s.radio.value, if delta > 0 then SeekUp else SeekDown))))
    ensures s.mode == RadioMode && s.radio.Some? && field == 1 ==>
      && r.Some? && r.value.radio.Some?
      && r.value.radio.value.volume == Clamp(0, VolumeMax, s.radio.value.volume + delta)
      && !r.value.radio.value.muted
    ensures s.mode == RadioMode && field >= 2 ==> r == Some(s)
  {
    match s.mode
    case TimeMode =>
      if field == 2 then Some(s.(format24 := !s.format24))
      else
        var t := s.rtc;
        var hour := if field == 0 then (t.hour + delta) % 24 else t.hour;
        var minute := if field == 1 then (t.minute + delta) % 60 else t.minute;
        Some(s.(rtc := t.(hour := hour, minute := minute, second := 0, subsecond := 0)))
    case AlarmMode =>
      if field == 0 then Some(s.(alarm := NudgeHour(s.alarm, delta)))
      else if field == 1 then Some(s.(alarm := NudgeMinute(s.alarm, delta)))
      else if field == 2 then Some(s.(alarm := ToggleEnabled(s.alarm)))
      else Some(s)
    case RadioMode =>
      if field == 0 then
        if s.radio.None? then None
        else Some(s.(radio := Some(Seek(s.radio.value, if delta > 0 then SeekUp else SeekDown))))
      else if field == 1 then
        if s.radio.None? then None
        else Some(s.(radio := Some(SetMute(StepVolume(s.radio.value, delta), false))))
      else Some(s)
  }

  /** Runs one button's handler. UP and DOWN do nothing unless editing. */
  function Dispatch(s: ClockState, b: Button): (r: Option<ClockState>)
    ensures (b == UpButton || b == DownButton) && !s.editing ==> r == Some(s)
    ensures b == ModeButton ==> r == Some(ButtonMode(s))
    ensures b == SetButton ==> r == Some(ButtonSet(s))
    ensures b == UpButton && s.editing ==> r == AdjustValue(s, s.editField, 1)
    ensures b == DownButton && s.editing ==> r == AdjustValue(s, s.editField, -1)
  {
    match b
    case UpButton => if s.editing then AdjustValue(s, s.editField, 1) else Some(s)
    case DownButton => if s.editing then AdjustValue(s, s.editField, -1) else Some(s)
    case ModeButton => Some(ButtonMode(s))
    case SetButton => Some(ButtonSet(s))
  }

  /** A screen's base lines with the edit caption appended when `show`
      holds; `None` when the cursor is past the caption list. */
  function Captioned(s: ClockState, lines: seq<string>, show: bool, bars: Option<int>): (r: Option<ScreenText>)
    ensures r.None? <==> show && s.editField >= FieldCount(s.mode)
  {
    if !show then Some(ScreenText(lines, bars))
    else if s.editField < |EditLabels(s.mode)| then Some(ScreenText(lines + [EditLabels(s.mode)[s.editField]], bars))
    else None
  }

  /** Whether the screen for `s` looks up an edit caption. */
  predicate ShowsCaption(s: ClockState) {
    match s.mode
    case TimeMode => s.editing
    case AlarmMode => s.editing && !s.alarm.snoozed
    case RadioMode => s.editing && s.radio.Some?
  }

  /** The text of the current screen, in drawing order. The radio screen
      omits its frequency line (a floating-point reading). */
  function Screen(s: ClockState): (r: Option<ScreenText>)
    ensures r.None? <==> ShowsCaption(s) && s.editField >= FieldCount(s.mode)
    ensures r.Some? && s.mode == RadioMode && s.radio.Some? ==> r.value.bars == Some(SignalBars(s.radio.value.rssi))
  {
    var t := s.rtc;
    match s.mode
    case TimeMode =>
      var lines := ["Clock", FormatTime(s.format24, t.hour, t.minute, Some(t.second)), if s.format24 then "24H" else "12H"];
      Captioned(s, lines, s.editing, None)
    case AlarmMode =>
      var a := s.alarm;
      var lines := [
        "Alarm: " + FormatTime(s.format24, a.hour, a.minute, None),
        "Now: " + FormatTime(s.format24, t.hour, t.minute, Some(t.second)),
        "State: " + (if a.enabled then "On" else "Off")];
      if a.snoozed then Some(ScreenText(lines + ["Snoozed " + IntToString(a.snoozeCount) + "x"], None))
      else Captioned(s, lines, s.editing, None)
    case RadioMode =>
      if s.radio.None? then Some(ScreenText(["Radio->Not initialized"], None))
      else
        var lines := ["Volume:" + IntToString(s.radio.value.volume) + "/" + IntToString(VolumeMax)];
        Captioned(s, lines, s.editing, Some(SignalBars(s.radio.value.rssi)))
  }

  /** `tick_update_disp`: polls the alarm; while it rings, flips the panel
      inversion and unmutes the radio; then draws the screen and the hint
      bar, which publishes the pushable-button mask and consumes the
      last-button marker. A failed screen draw stops before the hint bar. */
  function Render(s: ClockState): (r: Step)
    ensures r.state.alarm == Check(s.alarm, s.rtc)
    ensures r.state.alarm.triggered ==>
      && r.state.invertFlag == !s.invertFlag && r.state.displayInverted == r.state.invertFlag
      && (r.state.radio.Some? ==> !r.state.radio.value.muted)
    ensures !r.state.alarm.triggered ==>
      r.state.invertFlag == s.invertFlag && r.state.displayInverted == s.displayInverted && r.state.radio == s.radio
    ensures r.state.radio.Some? <==> s.radio.Some?
    ensures r.state.radio.Some? ==> r.state.radio.value.volume == s.radio.value.volume
    ensures r.state.mode == s.mode && r.state.editing == s.editing && r.state.editField == s.editField
    ensures r.state.format24 == s.format24 && r.state.rtc == s.rtc && r.state.amPm == s.amPm
    ensures r.frame.None? <==> ShowsCaption(s) && s.editField >= FieldCount(s.mode)
    ensures r.frame.None? ==> r.state.lastButton == s.lastButton && r.state.buttonsEnabled == s.buttonsEnabled
    ensures r.frame.Some? ==>
      && r.state.lastButton.None?
      && r.state.buttonsEnabled == ButtonsEnabled(s.editing)
      && r.frame.value.hints == HintBar(s.editing, r.state.alarm.triggered)
      && r.frame.value.highlight == Highlight(s.lastButton)
      && r.frame.value.inverted == r.state.displayInverted
  {
    var polled := s.(alarm := Check(s.alarm, s.rtc));
    var flashed :=
      if polled.alarm.triggered then
        MuteRadio(polled.(displayInverted := !polled.invertFlag, invertFlag := !polled.invertFlag), false)
      else polled;
    assert ShowsCaption(flashed) == ShowsCaption(s);
    match Screen(flashed)
    case None => Step(flashed, None)
    case Some(text) =>
      var frame := Frame(
        flashed.displayInverted, text.lines, text.bars,
        HintBar(flashed.editing, flashed.alarm.triggered), Highlight(flashed.lastButton));
      Step(flashed.(lastButton := None, buttonsEnabled := ButtonsEnabled(flashed.editing)), Some(frame))
  }

  /** `handle_buttons`: records the button for the highlight, runs its
      handler against the clock reading `now`, and redraws. An exception in
      the handler skips the redraw. */
  function HandleButton(s: ClockState, b: Button, now: DateTime): (r: Step)
    // the only handler that raises: an edit of the radio screen without a radio
    ensures (b == UpButton || b == DownButton) && s.editing && s.mode == RadioMode && s.radio.None? && s.editField < 2 ==>
      r == Step(s.(rtc := now, lastButton := Some(b)), None)
    // a drawn frame underlines the pressed button and consumes it
    ensures r.frame.Some? ==> r.frame.value.highlight == Highlight(Some(b)) && r.state.lastButton.None?
    ensures r.frame.None? ==> r.state.lastButton == Some(b)
    ensures !s.editing ==> r.frame.Some?
    // the reading is the fresh one, unless the press edited the clock itself
    ensures !((b == UpButton || b == DownButton) && s.editing && s.mode == TimeMode && s.editField != 2) ==> r.state.rtc == now
  {
    var pressed := s.(rtc := now, lastButton := Some(b));
    DispatchKeeps(pressed, b);
    match Dispatch(pressed, b)
    case None => Step(pressed, None)
    case Some(handled) => Render(handled)
  }

  /** What each button does to the screen, the cursor and the alarm, as
      seen after the redraw (which polls the alarm against `now`). */
  lemma PressOutcomes(s: ClockState, b: Button, now: DateTime)
    ensures var r := HandleButton(s, b, now).state;
      (b == UpButton || b == DownButton) && !s.editing ==>
      && r.mode == s.mode && !r.editing && r.editField == s.editField
      && r.format24 == s.format24 && r.alarm == Check(s.alarm, now)
    ensures var r := HandleButton(s, b, now).state;
      b == ModeButton && AlarmLive(s) ==>
      && r.mode == s.mode && r.editing == s.editing && r.editField == s.editField
      && r.alarm == Check(Reset(s.alarm), now)
    ensures var r := HandleButton(s, b, now).state;
      b == ModeButton && !AlarmLive(s) && s.editing ==>
      r.mode == s.mode && r.editing && r.editField == (s.editField + 1) % FieldCount(s.mode)
    ensures var r := HandleButton(s, b, now).state;
      b == ModeButton && !AlarmLive(s) && !s.editing ==>
      r.mode == Next(s.mode) && !r.editing && r.editField == s.editField
    ensures var r := HandleButton(s, b, now).state;
      b == SetButton && s.alarm.triggered ==>
      && r.mode == s.mode && r.editing == s.editing && r.editField == s.editField
      && r.alarm == Check(Snooze(s.alarm), now)
    ensures var r := HandleButton(s, b, now).state;
      b == SetButton && !s.alarm.triggered ==>
      r.mode == s.mode && r.editing == !s.editing && (!s.editing ==> r.editField == 0)
  {
    var pressed := s.(rtc := now, lastButton := Some(b));
    match b {
      case UpButton =>
        if !s.editing { assert HandleButton(s, b, now) == Render(pressed); }
      case DownButton =>
        if !s.editing { assert HandleButton(s, b, now) == Render(pressed); }
      case ModeButton => assert HandleButton(s, b, now) == Render(ButtonMode(pressed));
      case SetButton => assert HandleButton(s, b, now) == Render(ButtonSet(pressed));
    }
  }

  /** No handler touches the button bookkeeping, and only an UP or DOWN
      on the TIME screen, off its format field, writes the clock reading. */
  lemma DispatchKeeps(s: ClockState, b: Button)
    ensures Dispatch(s, b).Some? ==> Dispatch(s, b).value.lastButton == s.lastButton
    ensures Dispatch(s, b).Some? && !((b == UpButton || b == DownButton) && s.editing && s.mode == TimeMode && s.editField != 2) ==>
      Dispatch(s, b).value.rtc == s.rtc
  {
    match b {
      case UpButton =>
      case DownButton =>
      case ModeButton => assert Dispatch(s, b) == Some(ButtonMode(s));
      case SetButton => assert Dispatch(s, b) == Some(ButtonSet(s));
    }
  }

  /** The 1 Hz timer: a redraw against the reading `now`. It polls the
      alarm, keeps the screen and the cursor, and fails only when the
      cursor is past the caption list of an editing screen. */
  function TimerTick(s: ClockState, now: DateTime): (r: Step)
    ensures r.state.rtc == now && r.state.alarm == Check(s.alarm, now)
    ensures r.state.mode == s.mode && r.state.editing == s.editing && r.state.editField == s.editField
    ensures r.state.format24 == s.format24
    ensures r.state.alarm.triggered ==> r.state.invertFlag == !s.invertFlag
    ensures r.frame.Some? ==> r.frame.value.inverted == r.state.displayInverted
    ensures !r.state.alarm.triggered ==> r.state.invertFlag == s.invertFlag && r.state.radio == s.radio
    ensures r.frame.None? <==> ShowsCaption(s) && s.editField >= FieldCount(s.mode)
    ensures r.frame.Some? ==>
      && r.frame.value.highlight == Highlight(s.lastButton) && r.state.lastButton.None?
      && r.frame.value.hints == HintBar(s.editing, r.state.alarm.triggered)
  {
    Render(s.(rtc := now))
  }

  /** `get_time`: the clock reading as `HH:MM:SS`, always in 24-hour form
      whatever the display format. */
  function GetTime(s: ClockState): (text: string)
    ensures text == FormatTime(true, s.rtc.hour, s.rtc.minute, Some(s.rtc.second))
    ensures ValidTimeOfDay(s.rtc) ==>
      |text| == 8 && TwoDigitValue(text, 0) == s.rtc.hour && TwoDigitValue(text, 3) == s.rtc.minute
      && TwoDigitValue(text, 6) == s.rtc.second
  {
    var text := Pad2(s.rtc.hour) + ":" + Pad2(s.rtc.minute) + ":" + Pad2(s.rtc.second);
    assert ValidTimeOfDay(s.rtc) ==> TwoDigitValue(text, 0) == s.rtc.hour by {
      if ValidTimeOfDay(s.rtc) {
        FormatTime24ReadsBack(s.rtc.hour, s.rtc.minute, Some(s.rtc.second));
      }
    }
    text
  }

  /** The bounds the button path keeps: while editing, the cursor inside
      the screen's field list (outside editing it may point one past the
      radio screen's two fields, see `CursorOutsideEditing`); the alarm
      times, the clock reading and the radio volume inside their ranges. */
  predicate WellFormed(s: ClockState) {
    && s.editField < 3
    && (s.editing ==> s.editField < FieldCount(s.mode))
    && InRange(s.alarm)
    && ValidTimeOfDay(s.rtc)
    && (s.radio.Some? ==> 0 <= s.radio.value.volume <= VolumeMax)
  }

  lemma InitWellFormed(now: DateTime, radio: Option<Radio>)
    requires ValidTimeOfDay(now)
    ensures WellFormed(Init(now, radio))
  {
  }

  /** On a well-formed state every redraw completes: the cursor always
      names a caption that exists. */
  lemma RenderWellFormed(s: ClockState)
    requires WellFormed(s)
    ensures WellFormed(Render(s).state)
    ensures Render(s).frame.Some?
  {
  }

  /** MODE keeps the bounds: the cursor wraps inside the field count. */
  lemma ButtonModeWellFormed(s: ClockState)
    requires WellFormed(s)
    ensures WellFormed(ButtonMode(s))
  {
  }

  /** SET keeps the bounds: entering editing puts the cursor on field 0. */
  lemma ButtonSetWellFormed(s: ClockState)
    requires WellFormed(s)
    ensures WellFormed(ButtonSet(s))
  {
  }

  /** An UP or DOWN edit keeps the bounds, and fails only on the radio
      screen of a clock without a radio. */
  lemma AdjustValueWellFormed(s: ClockState, delta: int)
    requires WellFormed(s) && s.editing && (delta == 1 || delta == -1)
    ensures AdjustValue(s, s.editField, delta).Some? ==> WellFormed(AdjustValue(s, s.editField, delta).value)
    ensures AdjustValue(s, s.editField, delta).None? <==> s.mode == RadioMode && s.radio.None?
  {
  }

  lemma DispatchWellFormed(s: ClockState, b: Button)
    requires WellFormed(s)
    ensures Dispatch(s, b).Some? ==> WellFormed(Dispatch(s, b).value)
    ensures Dispatch(s, b).None? <==>
      (b == UpButton || b == DownButton) && s.editing && s.mode == RadioMode && s.radio.None?
  {
    match b {
      case UpButton => if s.editing { AdjustValueWellFormed(s, 1); }
      case DownButton => if s.editing { AdjustValueWellFormed(s, -1); }
      case ModeButton => ButtonModeWellFormed(s);
      case SetButton => ButtonSetWellFormed(s);
    }
  }

  /** A button press keeps the bounds, and draws a frame unless it edits
      the radio screen of a clock without a radio. */
  lemma HandleButtonWellFormed(s: ClockState, b: Button, now: DateTime)
    requires WellFormed(s) && ValidTimeOfDay(now)
    ensures WellFormed(HandleButton(s, b, now).state)
    ensures HandleButton(s, b, now).frame.None? <==>
      (b == UpButton || b == DownButton) && s.editing && s.mode == RadioMode && s.radio.None?
  {
    var pressed := s.(rtc := now, lastButton := Some(b));
    DispatchWellFormed(pressed, b);
    if Dispatch(pressed, b).Some? {
      RenderWellFormed(Dispatch(pressed, b).value);
    }
  }

  /** The events of the interrupt and timer path. */
  datatype Event = Press(button: Button, pressedAt: DateTime) | Tick(tickedAt: DateTime)

  function Apply(s: ClockState, e: Event): Step {
    match e
    case Press(b, now) => HandleButton(s, b, now)
    case Tick(now) => TimerTick(s, now)
  }

  function Run(s: ClockState, events: seq<Event>): ClockState
    decreases |events|
  {
    if |events| == 0 then s else Run(Apply(s, events[0]).state, events[1..])
  }

  predicate ValidReadings(events: seq<Event>) {
    forall i :: 0 <= i < |events| ==>
      ValidTimeOfDay(if events[i].Press? then events[i].pressedAt else events[i].tickedAt)
  }

  /** Whatever the buttons and the timer do, from a well-formed state the
      cursor stays below the screen's field count while editing, hours stay in [0, 24),
      minutes in [0, 60) and the volume in [0, VolumeMax]. */
  lemma {:induction false} RunWellFormed(s: ClockState, events: seq<Event>)
    requires WellFormed(s) && ValidReadings(events)
    ensures WellFormed(Run(s, events))
    decreases |events|
  {
    if |events| > 0 {
      var e := events[0];
      match e {
        case Press(b, now) => HandleButtonWellFormed(s, b, now);
        case Tick(now) => RenderWellFormed(s.(rtc := now));
      }
      assert ValidReadings(events[1..]) by {
        forall i | 0 <= i < |events[1..]|
          ensures ValidTimeOfDay(if events[1..][i].Press? then events[1..][i].pressedAt else events[1..][i].tickedAt)
        {
          assert events[1..][i] == events[i + 1];
        }
      }
      RunWellFormed(Apply(s, e).state, events[1..]);
    }
  }

  /** From power-on the bounds hold after any sequence of presses and ticks. */
  lemma PowerOnRunWellFormed(now: DateTime, radio: Option<Radio>, events: seq<Event>)
    requires ValidTimeOfDay(now) && ValidReadings(events)
    ensures WellFormed(Run(Init(now, radio), events))
  {
    InitWellFormed(now, radio);
    RunWellFormed(Init(now, radio), events);
  }

  /** The radio is muted exactly off the RADIO screen. */
  predicate MuteFollowsMode(s: ClockState) {
    s.radio.Some? ==> s.radio.value.muted == (s.mode != RadioMode)
  }

  /** Three MODE presses outside editing and with no live alarm go round
      the ring and restore the state, mute included. */
  lemma ModeRingRoundTrip(s: ClockState)
    requires !AlarmLive(s) && !s.editing && MuteFollowsMode(s)
    ensures MuteFollowsMode(ButtonMode(s))
    ensures ButtonMode(ButtonMode(ButtonMode(s))) == s
  {
    NextCycles(s.mode);
  }

  function ModeTimes(s: ClockState, n: nat): ClockState
    decreases n
  {
    if n == 0 then s else ButtonMode(ModeTimes(s, n - 1))
  }

  /** While editing, MODE walks the cursor 0 -> 1 -> ... and wraps. */
  lemma {:induction false} CursorWalk(s: ClockState, n: nat)
    requires !AlarmLive(s) && s.editing && s.editField < FieldCount(s.mode)
    ensures ModeTimes(s, n) == s.(editField := (s.editField + n) % FieldCount(s.mode))
    decreases n
  {
    if n > 0 {
      CursorWalk(s, n - 1);
      var k := FieldCount(s.mode);
      Arith.ModAddStep(s.editField + (n - 1), 1, k);
    } else {
      Arith.ModUnique(s.editField, FieldCount(s.mode), 0, s.editField);
    }
  }

  /** The cursor is kept when editing ends, so outside editing it can
      point past the radio screen's fields: on TIME, SET, MODE, MODE, SET,
      then MODE twice reaches RADIO with the cursor on field 2. No caption
      is drawn there, and the next SET puts the cursor back on field 0. */
  lemma CursorOutsideEditing(s: ClockState)
    requires s.mode == TimeMode && !s.editing && !AlarmLive(s)
    ensures var r := ButtonMode(ButtonMode(ButtonSet(ButtonMode(ButtonMode(ButtonSet(s))))));
      && r.mode == RadioMode && !r.editing && r.editField == 2 == FieldCount(RadioMode)
      && Render(r).frame.Some?
      && ButtonSet(r).editing && ButtonSet(r).editField == 0
  {
  }

  /** SET twice outside a ringing alarm is a round trip back to the same
      editing flag, with the cursor on the first field. */
  lemma SetTwice(s: ClockState)
    requires !s.alarm.triggered
    ensures ButtonSet(ButtonSet(s)) == s.(editField := 0, buttonsEnabled := ButtonsEnabled(s.editing))
  {
  }

  /** The hint bar tells the truth about the SET button: "SNOZ" exactly
      when SET will snooze, "DONE" when it will leave editing, "SET" when
      it will enter editing. */
  lemma HintBarPredictsSet(s: ClockState)
    ensures var slot := HintBar(s.editing, s.alarm.triggered)[3];
      && (slot == "SNOZ" <==> ButtonSet(s) == SnoozeAlarm(s) && s.alarm.triggered)
      && (slot == "DONE" ==> !ButtonSet(s).editing && s.editing)
      && (slot == "SET" ==> ButtonSet(s).editing && !s.editing)
  {
  }

  /** "RST" in the MODE slot means MODE will reset the alarm and keep the
      screen. */
  lemma HintBarPredictsReset(s: ClockState)
    requires HintBar(s.editing, s.alarm.triggered)[2] == "RST"
    ensures ButtonMode(s) == ResetAlarm(s)
    ensures ButtonMode(s).mode == s.mode
  {
  }

  /** The converse fails: during a pending snooze the MODE slot still
      reads "MODE" (or "NEXT"), yet the button resets the alarm instead of
      changing screen or field. */
  lemma HintBarHidesSnoozeReset(s: ClockState)
    requires s.alarm.snoozed && !s.alarm.triggered
    ensures HintBar(s.editing, s.alarm.triggered)[2] in {"MODE", "NEXT"}
    ensures ButtonMode(s).mode == s.mode && ButtonMode(s).editField == s.editField
    ensures ButtonMode(s).alarm == Reset(s.alarm)
  {
  }

  /** UP and DOWN on the TIME hour are inverse on an in-range clock, and
      both leave the clock at the start of its minute. */
  lemma TimeHourUpDown(s: ClockState)
    requires s.mode == TimeMode && 0 <= s.rtc.hour < 24
    ensures var up := AdjustValue(s, 0, 1).value;
      AdjustValue(up, 0, -1).value.rtc == s.rtc.(second := 0, subsecond := 0)
  {
  }

  /** One volume edit moves the volume one step and stops at the ends of
      `[0, VolumeMax]`. */
  lemma VolumeEditSaturates(s: ClockState)
    requires s.mode == RadioMode && s.radio.Some? && 0 <= s.radio.value.volume <= VolumeMax
    ensures var once := AdjustValue(s, 1, 1).value;
      once.radio.value.volume == if s.radio.value.volume < VolumeMax then s.radio.value.volume + 1 else VolumeMax
    ensures AdjustValue(s, 1, -1).value.radio.value.volume == if s.radio.value.volume > 0 then s.radio.value.volume - 1 else 0
  {
  }
}
