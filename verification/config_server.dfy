/** The configuration web server of the clock (the access-point variant):
    each request path is routed by the first of its prefixes it starts
    with, the handler changes the clock state, and a reply goes back. The
    clock state is the controller record of the `Clock` module; the server
    never touches the editing cursor, the button bookkeeping or the panel.
    An exception the route does not catch ends the server loop (`Halt`). */
module ConfigServer {
  import opened Util
  import opened Text
  import opened Rtc
  import opened Tuner
  import opened Controls
  import opened Alarm
  import opened Display
  import opened Clock
  import opened Query

  /** The routes, in the order the server tries them. */
  datatype Endpoint =
    | ToggleFormat | SetTimeForm | SetAlarmForm | AlarmEnabled | AlarmDisabled
    | GetSettings | SetModeForm | SeekUpButton | SeekDownButton | VolumeUp | VolumeDown
    | FileRequest

  /** The path prefix that selects a route. */
  function Prefix(e: Endpoint): string {
    match e
    case ToggleFormat => "/toggle_format"
    case SetTimeForm => "/set_time"
    case SetAlarmForm => "/set_alarm"
    case AlarmEnabled => "/alarm_enabled"
    case AlarmDisabled => "/alarm_disabled"
    case GetSettings => "/get_settings"
    case SetModeForm => "/set_mode"
    case SeekUpButton => "/radio_seek_up"
    case SeekDownButton => "/radio_seek_down"
    case VolumeUp => "/radio_vol_up"
    case VolumeDown => "/radio_vol_down"
    case FileRequest => ""
  }

  /** The `startswith` chain of the request loop. */
  function Classify(path: string): (e: Endpoint)
    ensures e != FileRequest ==> StartsWith(path, Prefix(e))
  {
    if StartsWith(path, "/toggle_format") then ToggleFormat
    else if StartsWith(path, "/set_time") then SetTimeForm
    else if StartsWith(path, "/set_alarm") then SetAlarmForm
    else if StartsWith(path, "/alarm_enabled") then AlarmEnabled
    else if StartsWith(path, "/alarm_disabled") then AlarmDisabled
    else if StartsWith(path, "/get_settings") then GetSettings
    else if StartsWith(path, "/set_mode") then SetModeForm
    else if StartsWith(path, "/radio_seek_up") then SeekUpButton
    else if StartsWith(path, "/radio_seek_down") then SeekDownButton
    else if StartsWith(path, "/radio_vol_up") then VolumeUp
    else if StartsWith(path, "/radio_vol_down") then VolumeDown
    else FileRequest
  }

  lemma PrefixClash(p: string, rest: string, q: string, i: nat)
    requires i < |p| && i < |q| && p[i] != q[i]
    ensures !StartsWith(p + rest, q)
  {
    if |q| <= |p + rest| {
      assert (p + rest)[..|q|][i] == p[i];
    }
  }

  /** No route prefix is a prefix of another, so the order of the chain
      does not matter: a path built on a route's prefix reaches that route. */
  lemma ClassifyPrefixed(e: Endpoint, rest: string)
    requires e != FileRequest
    ensures Classify(Prefix(e) + rest) == e
  {
    match e {
      case ToggleFormat => ClassifyToggleFormat(rest);
      case SetTimeForm => ClassifySetTimeForm(rest);
      case SetAlarmForm => ClassifySetAlarmForm(rest);
      case AlarmEnabled => ClassifyAlarmEnabled(rest);
      case AlarmDisabled => ClassifyAlarmDisabled(rest);
      case GetSettings => ClassifyGetSettings(rest);
      case SetModeForm => ClassifySetModeForm(rest);
      case SeekUpButton => ClassifySeekUpButton(rest);
      case SeekDownButton => ClassifySeekDownButton(rest);
      case VolumeUp => ClassifyVolumeUp(rest);
      case VolumeDown => ClassifyVolumeDown(rest);
    }
  }

  /** A path starting with `p` starts with `p`. */
  lemma OwnPrefix(p: string, rest: string)
    ensures StartsWith(p + rest, p)
  {
    assert (p + rest)[..|p|] == p;
  }

  lemma ClassifyToggleFormat(rest: string)
    ensures Classify("/toggle_format" + rest) == ToggleFormat
  {
    OwnPrefix("/toggle_format", rest);
  }

  lemma ClassifySetTimeForm(rest: string)
    ensures Classify("/set_time" + rest) == SetTimeForm
  {
    OwnPrefix("/set_time", rest);
    PrefixClash("/set_time", rest, "/toggle_format", 1);
  }

  lemma ClassifySetAlarmForm(rest: string)
    ensures Classify("/set_alarm" + rest) == SetAlarmForm
  {
    OwnPrefix("/set_alarm", rest);
    PrefixClash("/set_alarm", rest, "/toggle_format", 1);
    PrefixClash("/set_alarm", rest, "/set_time", 5);
  }

  lemma ClassifyAlarmEnabled(rest: string)
    ensures Classify("/alarm_enabled" + rest) == AlarmEnabled
  {
    OwnPrefix("/alarm_enabled", rest);
    PrefixClash("/alarm_enabled", rest, "/toggle_format", 1);
    PrefixClash("/alarm_enabled", rest, "/set_time", 1);
    PrefixClash("/alarm_enabled", rest, "/set_alarm", 1);
  }

  lemma ClassifyAlarmDisabled(rest: string)
    ensures Classify("/alarm_disabled" + rest) == AlarmDisabled
  {
    OwnPrefix("/alarm_disabled", rest);
    PrefixClash("/alarm_disabled", rest, "/toggle_format", 1);
    PrefixClash("/alarm_disabled", rest, "/set_time", 1);
    PrefixClash("/alarm_disabled", rest, "/set_alarm", 1);
    PrefixClash("/alarm_disabled", rest, "/alarm_enabled", 7);
  }

  lemma ClassifyGetSettings(rest: string)
    ensures Classify("/get_settings" + rest) == GetSettings
  {
    OwnPrefix("/get_settings", rest);
    PrefixClash("/get_settings", rest, "/toggle_format", 1);
    PrefixClash("/get_settings", rest, "/set_time", 1);
    PrefixClash("/get_settings", rest, "/set_alarm", 1);
    PrefixClash("/get_settings", rest, "/alarm_enabled", 1);
    PrefixClash("/get_settings", rest, "/alarm_disabled", 1);
  }

  lemma ClassifySetModeForm(rest: string)
    ensures Classify("/set_mode" + rest) == SetModeForm
  {
    OwnPrefix("/set_mode", rest);
    PrefixClash("/set_mode", rest, "/toggle_format", 1);
    PrefixClash("/set_mode", rest, "/set_time", 5);
    PrefixClash("/set_mode", rest, "/set_alarm", 5);
    PrefixClash("/set_mode", rest, "/alarm_enabled", 1);
    PrefixClash("/set_mode", rest, "/alarm_disabled", 1);
    PrefixClash("/set_mode", rest, "/get_settings", 1);
  }

  lemma ClassifySeekUpButton(rest: string)
    ensures Classify("/radio_seek_up" + rest) == SeekUpButton
  {
    OwnPrefix("/radio_seek_up", rest);
    PrefixClash("/radio_seek_up", rest, "/toggle_format", 1);
    PrefixClash("/radio_seek_up", rest, "/set_time", 1);
    PrefixClash("/radio_seek_up", rest, "/set_alarm", 1);
    PrefixClash("/radio_seek_up", rest, "/alarm_enabled", 1);
    PrefixClash("/radio_seek_up", rest, "/alarm_disabled", 1);
    PrefixClash("/radio_seek_up", rest, "/get_settings", 1);
    PrefixClash("/radio_seek_up", rest, "/set_mode", 1);
  }

  lemma ClassifySeekDownButton(rest: string)
    ensures Classify("/radio_seek_down" + rest) == SeekDownButton
  {
    OwnPrefix("/radio_seek_down", rest);
    PrefixClash("/radio_seek_down", rest, "/toggle_format", 1);
    PrefixClash("/radio_seek_down", rest, "/set_time", 1);
    PrefixClash("/radio_seek_down", rest, "/set_alarm", 1);
    PrefixClash("/radio_seek_down", rest, "/alarm_enabled", 1);
    PrefixClash("/radio_seek_down", rest, "/alarm_disabled", 1);
    PrefixClash("/radio_seek_down", rest, "/get_settings", 1);
    PrefixClash("/radio_seek_down", rest, "/set_mode", 1);
    PrefixClash("/radio_seek_down", rest, "/radio_seek_up", 12);
  }

  lemma ClassifyVolumeUp(rest: string)
    ensures Classify("/radio_vol_up" + rest) == VolumeUp
  {
    OwnPrefix("/radio_vol_up", rest);
    PrefixClash("/radio_vol_up", rest, "/toggle_format", 1);
    PrefixClash("/radio_vol_up", rest, "/set_time", 1);
    PrefixClash("/radio_vol_up", rest, "/set_alarm", 1);
    PrefixClash("/radio_vol_up", rest, "/alarm_enabled", 1);
    PrefixClash("/radio_vol_up", rest, "/alarm_disabled", 1);
    PrefixClash("/radio_vol_up", rest, "/get_settings", 1);
    PrefixClash("/radio_vol_up", rest, "/set_mode", 1);
    PrefixClash("/radio_vol_up", rest, "/radio_seek_up", 7);
    PrefixClash("/radio_vol_up", rest, "/radio_seek_down", 7);
  }

  lemma ClassifyVolumeDown(rest: string)
    ensures Classify("/radio_vol_down" + rest) == VolumeDown
  {
    OwnPrefix("/radio_vol_down", rest);
    PrefixClash("/radio_vol_down", rest, "/toggle_format", 1);
    PrefixClash("/radio_vol_down", rest, "/set_time", 1);
    PrefixClash("/radio_vol_down", rest, "/set_alarm", 1);
    PrefixClash("/radio_vol_down", rest, "/alarm_enabled", 1);
    PrefixClash("/radio_vol_down", rest, "/alarm_disabled", 1);
    PrefixClash("/radio_vol_down", rest, "/get_settings", 1);
    PrefixClash("/radio_vol_down", rest, "/set_mode", 1);
    PrefixClash("/radio_vol_down", rest, "/radio_seek_up", 7);
    PrefixClash("/radio_vol_down", rest, "/radio_seek_down", 7);
    PrefixClash("/radio_vol_down", rest, "/radio_vol_up", 11);
  }

  /** The JSON body of `/get_settings` (the radio frequency, a float, is
      not part of the model). */
  datatype Settings = Settings(
    time: string, format24: bool, alarmHour: int, alarmMinute: int,
    alarmToggle: bool, volume: int)

  /** The values the index page template is filled with. */
  datatype IndexView = IndexView(time: string, alarmChecked: bool, alarm: string)

  datatype Reply =
    | Redirect(location: string)
    | SettingsBody(settings: Settings)
    | Accepted
    | BadRequest
    | Page(view: IndexView)
    | StaticFile(path: string)
    | Halt

  datatype Served = Served(state: ClockState, reply: Reply)

  /** `handle_set_time`: writes hour, minute and second into the clock
      reading as given (no range check), keeping the date and subsecond
      fields; any failure leaves the clock alone. */
  function SetTime(s: ClockState, path: string): (r: ClockState)
    ensures r == s.(rtc := r.rtc)
    ensures r.rtc == WithTimeOfDay(s.rtc, r.rtc.hour, r.rtc.minute, r.rtc.second)
    ensures TimeFields(path).None? ==> r == s
    ensures TimeFields(path).Some? ==> var f := TimeFields(path).value;
      r.rtc.hour == f.0 && r.rtc.minute == f.1 && r.rtc.second == f.2
  {
    match TimeFields(path)
    case None => s
    case Some(f) => s.(rtc := WithTimeOfDay(s.rtc, f.0, f.1, f.2))
  }

  /** The hour and minute a set-alarm path carries; `mode` is read but unused. */
  function AlarmFields(path: string): (r: Option<(int, int)>)
    ensures r.Some? <==> ParseQuery(path).Some? && var q := ParseQuery(path).value;
      IntField(q, "h").Some? && IntField(q, "m").Some?
    ensures r.Some? ==> var q := ParseQuery(path).value;
      r.value == (IntField(q, "h").value, IntField(q, "m").value)
  {
    match ParseQuery(path)
    case None => None
    case Some(q) =>
      var h := IntField(q, "h");
      var m := IntField(q, "m");
      if h.Some? && m.Some? then Some((h.value, m.value)) else None
  }

  /** `handle_set_alarm`: both ints are parsed before anything is stored,
      so a failure changes nothing; otherwise the time becomes both the
      effective and the original alarm time and the alarm is switched on. */
  function SetAlarm(s: ClockState, path: string): (r: ClockState)
    ensures r == s.(alarm := r.alarm)
    ensures AlarmFields(path).None? ==> r == s
    ensures AlarmFields(path).Some? ==> r.alarm == Alarm.SetTime(s.alarm, AlarmFields(path).value.0, AlarmFields(path).value.1)
  {
    match AlarmFields(path)
    case None => s
    case Some(f) => s.(alarm := Alarm.SetTime(s.alarm, f.0, f.1))
  }

  /** The mode a set-mode path asks for: the `mode` value (empty when
      absent) in capitals, if it is one of the three names. */
  function RequestedMode(q: map<string, string>): (r: Option<Mode>)
    ensures r.Some? ==> ModeName(r.value) == Upper(if "mode" in q then q["mode"] else "")
  {
    ModeFromName(Upper(if "mode" in q then q["mode"] else ""))
  }

  /** `/set_mode`: a malformed query or an unknown name is a 400 with no
      change. A known name is stored first; then the radio is muted unless
      the new mode is RADIO. Without a radio that mute raises, which the
      route catches as a 400 after the mode has changed. */
  function SetMode(s: ClockState, path: string): (r: Served)
    ensures r.reply == Accepted || r.reply == BadRequest
    ensures r.state == s.(mode := r.state.mode, radio := r.state.radio)
    ensures r.state.radio.Some? <==> s.radio.Some?
    ensures r.reply == Accepted ==> s.radio.Some? && r.state.radio == Some(SetMute(s.radio.value, r.state.mode != RadioMode))
    ensures r.reply == BadRequest ==> r.state.radio == s.radio
    ensures r.state.mode != s.mode ==> ParseQuery(path).Some? && RequestedMode(ParseQuery(path).value) == Some(r.state.mode)
    ensures r.reply == Accepted <==> s.radio.Some? && ParseQuery(path).Some? && RequestedMode(ParseQuery(path).value).Some?
    ensures ParseQuery(path).Some? && RequestedMode(ParseQuery(path).value).Some? ==>
      r.state.mode == RequestedMode(ParseQuery(path).value).value
    ensures ParseQuery(path).None? || RequestedMode(ParseQuery(path).value).None? ==> r == Served(s, BadRequest)
  {
    match ParseQuery(path)
    case None => Served(s, BadRequest)
    case Some(q) =>
      match RequestedMode(q)
      case None => Served(s, BadRequest)
      case Some(m) =>
        var switched := s.(mode := m);
        if switched.radio.None? then Served(switched, BadRequest)
        else Served(MuteRadio(switched, m != RadioMode), Accepted)
  }

  /** `/get_settings`: the effective alarm time, not the original one. */
  function CurrentSettings(s: ClockState): (r: Settings)
    requires s.radio.Some?
    ensures r.alarmHour == s.alarm.hour && r.alarmMinute == s.alarm.minute
    ensures r.alarmToggle == s.alarm.enabled && r.format24 == s.format24
    ensures r.time == GetTime(s) && r.volume == s.radio.value.volume
  {
    Settings(GetTime(s), s.format24, s.alarm.hour, s.alarm.minute, s.alarm.enabled, s.radio.value.volume)
  }

  /** The index page: the clock reading, the alarm switch, and the
      original alarm time in the display format. */
  function Index(s: ClockState): (v: IndexView)
    ensures v.time == GetTime(s) && v.alarmChecked == s.alarm.enabled
    ensures v.alarm == FormatTime(s.format24, s.alarm.originalHour, s.alarm.originalMinute, None)
  {
    IndexView(GetTime(s), s.alarm.enabled, FormatTime(s.format24, s.alarm.originalHour, s.alarm.originalMinute, None))
  }

  /** Routes that talk to the radio directly and so raise without one. */
  predicate NeedsRadio(e: Endpoint) {
    e == GetSettings || e == SeekUpButton || e == SeekDownButton || e == VolumeUp || e == VolumeDown
  }

  /** One request, served when the clock reads `now`: every handler that
      looks at the time asks the real-time clock afresh, so the state it
      sees carries `now`; the route the path selects is then handled. */
  function Route(s: ClockState, path: string, now: DateTime): (r: Served)
    ensures r.reply == Halt <==> NeedsRadio(Classify(path)) && s.radio.None?
    ensures r.reply == Halt ==> r.state == s.(rtc := now)
    ensures r.state.radio.Some? <==> s.radio.Some?
    ensures r.state.editing == s.editing && r.state.editField == s.editField
    ensures r.state.lastButton == s.lastButton && r.state.buttonsEnabled == s.buttonsEnabled
    ensures r.state.invertFlag == s.invertFlag && r.state.displayInverted == s.displayInverted
    ensures r.state.amPm == s.amPm
    ensures r.state.format24 != s.format24 ==> Classify(path) == ToggleFormat
    ensures r.state.rtc != now ==> Classify(path) == SetTimeForm
    ensures r.state.alarm != s.alarm ==> Classify(path) in {SetAlarmForm, AlarmEnabled, AlarmDisabled}
    ensures r.state.mode != s.mode ==> Classify(path) == SetModeForm
    ensures r.state.radio != s.radio ==> Classify(path) in {SetModeForm, SeekUpButton, SeekDownButton, VolumeUp, VolumeDown}
  {
    Handle(s.(rtc := now), Classify(path), path)
  }

  /** The four radio buttons of the page: a seek or a volume step on the
      radio, then back to its section; without a radio the call raises. */
  function RadioButton(s: ClockState, e: Endpoint): (r: Served)
    requires e in {SeekUpButton, SeekDownButton, VolumeUp, VolumeDown}
    ensures r.reply == Halt <==> s.radio.None?
    ensures r.reply == Halt ==> r.state == s
    ensures r.reply != Halt ==> r.reply == Redirect("/#RADIO") && r.state.radio.Some?
    ensures r.state == s.(radio := r.state.radio)
    ensures s.radio.Some? ==>
      var p := s.radio.value;
      var q := r.state.radio.value;
      && q.muted == p.muted && q.rssi == p.rssi
      && (e in {SeekUpButton, SeekDownButton} ==>
            q.volume == p.volume && q.seeks == p.seeks + [if e == SeekUpButton then SeekUp else SeekDown])
      && (e in {VolumeUp, VolumeDown} ==>
            q.seeks == p.seeks && q.volume == Clamp(0, VolumeMax, p.volume + (if e == VolumeUp then 1 else -1)))
  {
    if s.radio.None? then Served(s, Halt)
    else
      var radio := s.radio.value;
      var next :=
        match e
        case SeekUpButton => Seek(radio, SeekUp)
        case SeekDownButton => Seek(radio, SeekDown)
        case VolumeUp => StepVolume(radio, 1)
        case _ => StepVolume(radio, -1);
      Served(s.(radio := Some(next)), Redirect("/#RADIO"))
  }

  /** The handler of route `e` for the request `path`. */
  function Handle(s: ClockState, e: Endpoint, path: string): (r: Served)
    ensures r.reply == Halt <==> NeedsRadio(e) && s.radio.None?
    ensures r.reply == Halt ==> r.state == s
    ensures r.state.radio.Some? <==> s.radio.Some?
    ensures r.state.editing == s.editing && r.state.editField == s.editField
    ensures r.state.lastButton == s.lastButton && r.state.buttonsEnabled == s.buttonsEnabled
    ensures r.state.invertFlag == s.invertFlag && r.state.displayInverted == s.displayInverted
    ensures r.state.amPm == s.amPm
    ensures r.state.format24 != s.format24 ==> e == ToggleFormat
    ensures r.state.rtc != s.rtc ==> e == SetTimeForm
    ensures r.state.alarm != s.alarm ==> e in {SetAlarmForm, AlarmEnabled, AlarmDisabled}
    ensures r.state.mode != s.mode ==> e == SetModeForm
    ensures r.state.radio != s.radio ==> e in {SetModeForm, SeekUpButton, SeekDownButton, VolumeUp, VolumeDown}
  {
    match e
    case ToggleFormat => Served(s.(format24 := !s.format24), Redirect("/"))
    case SetTimeForm => Served(SetTime(s, path), Redirect("/#TIME"))
    case SetAlarmForm => Served(SetAlarm(s, path), Redirect("/#ALARM"))
    case AlarmEnabled => Served(s.(alarm := s.alarm.(enabled := true)), Redirect("/#ALARM"))
    case AlarmDisabled => Served(s.(alarm := s.alarm.(enabled := false)), Redirect("/#ALARM"))
    case GetSettings =>
      if s.radio.None? then Served(s, Halt) else Served(s, SettingsBody(CurrentSettings(s)))
    case SetModeForm => SetMode(s, path)
    case SeekUpButton => RadioButton(s, e)
    case SeekDownButton => RadioButton(s, e)
    case VolumeUp => RadioButton(s, e)
    case VolumeDown => RadioButton(s, e)
    case FileRequest =>
      if path == "/" || path == "/on?" || path == "/off?" then Served(s, Page(Index(s)))
      else Served(s, StaticFile(path))
  }

  /** A request as the server loop meets it: the clock reading while it
      is served, and its path. */
  datatype Request = Request(now: DateTime, path: string)

  /** The request loop; an uncaught exception ends it and the remaining
      requests are never served. Whatever arrives, the loop leaves the
      editing cursor, the button bookkeeping and the panel alone and never
      takes the radio away or brings one. */
  function Serve(s: ClockState, requests: seq<Request>): (r: ClockState)
    ensures r.editing == s.editing && r.editField == s.editField
    ensures r.lastButton == s.lastButton && r.buttonsEnabled == s.buttonsEnabled
    ensures r.invertFlag == s.invertFlag && r.displayInverted == s.displayInverted
    ensures r.radio.Some? <==> s.radio.Some?
    ensures |requests| == 0 ==> r == s
    decreases |requests|
  {
    if |requests| == 0 then s
    else
      var r := Route(s, requests[0].path, requests[0].now);
      if r.reply == Halt then r.state else Serve(r.state, requests[1..])
  }

  /** A format toggle flips the 12/24-hour flag and nothing else, and
      redirects to the index page. */
  lemma ToggleFormatFlips(s: ClockState, rest: string, now: DateTime)
    ensures Route(s, "/toggle_format" + rest, now) ==
      Served(s.(rtc := now, format24 := !s.format24), Redirect("/"))
  {
    ClassifyToggleFormat(rest);
  }

  /** Two format toggles are the identity, up to the clock reading. */
  lemma ToggleFormatTwice(s: ClockState, rest1: string, rest2: string, now1: DateTime, now2: DateTime)
    ensures Route(Route(s, "/toggle_format" + rest1, now1).state, "/toggle_format" + rest2, now2).state == s.(rtc := now2)
  {
    ToggleFormatFlips(s, rest1, now1);
    ToggleFormatFlips(s.(rtc := now1, format24 := !s.format24), rest2, now2);
  }

  /** Switching the alarm on or off over the network touches only the
      enabled flag, and doing it twice is the same as once. */
  lemma AlarmSwitchIdempotent(s: ClockState, rest: string, on: bool, now: DateTime)
    ensures var p := (if on then "/alarm_enabled" else "/alarm_disabled") + rest;
      var once := Route(s, p, now).state;
      && once == s.(rtc := now, alarm := s.alarm.(enabled := on))
      && Route(once, p, now).state == once
  {
    var p := (if on then "/alarm_enabled" else "/alarm_disabled") + rest;
    var e := if on then AlarmEnabled else AlarmDisabled;
    if on { ClassifyAlarmEnabled(rest); } else { ClassifyAlarmDisabled(rest); }
    var once := s.(rtc := now, alarm := s.alarm.(enabled := on));
    assert Route(s, p, now) == Handle(s.(rtc := now), e, p);
    assert Handle(s.(rtc := now), e, p).state == once;
    assert once.(rtc := now) == once;
    assert Route(once, p, now) == Handle(once, e, p);
    assert once.alarm.(enabled := on) == once.alarm;
  }

  /** Volume requests clamp to `[0, VolumeMax]` and leave the mute alone;
      up then down is the identity below the top. */
  lemma VolumeRoutes(s: ClockState, rest: string, now: DateTime)
    requires s.radio.Some? && 0 <= s.radio.value.volume < VolumeMax
    ensures var up := Route(s, "/radio_vol_up" + rest, now).state;
      && up.radio.value.volume == s.radio.value.volume + 1
      && up.radio.value.muted == s.radio.value.muted
      && Route(up, "/radio_vol_down" + rest, now).state == s.(rtc := now)
  {
    ClassifyVolumeUp(rest);
    ClassifyVolumeDown(rest);
    var r := s.radio.value;
    var up := s.(rtc := now, radio := Some(StepVolume(r, 1)));
    assert Route(s, "/radio_vol_up" + rest, now).state == up;
    assert up.(rtc := now) == up;
    assert Route(up, "/radio_vol_down" + rest, now).state == up.(radio := Some(StepVolume(StepVolume(r, 1), -1)));
    StepVolumeUpDown(r);
  }

  /** The settings report the effective alarm time while the index page
      shows the original one: after a snooze of an alarm that rang at its
      set time the two differ. */
  lemma SettingsShowSnoozedAlarm(s: ClockState, rest: string, now: DateTime)
    requires s.radio.Some? && InRange(s.alarm)
    requires s.alarm.hour == s.alarm.originalHour && s.alarm.minute == s.alarm.originalMinute
    ensures var t := SnoozeAlarm(s).(rtc := now);
      && Route(SnoozeAlarm(s), "/get_settings" + rest, now).reply == SettingsBody(CurrentSettings(t))
      && (CurrentSettings(t).alarmHour, CurrentSettings(t).alarmMinute) != (s.alarm.originalHour, s.alarm.originalMinute)
      && Route(SnoozeAlarm(s), "/", now).reply == Page(Index(t))
      && Index(t).alarm == FormatTime(t.format24, s.alarm.originalHour, s.alarm.originalMinute, None)
  {
    var t := SnoozeAlarm(s);
    ClassifyGetSettings(rest);
    RouteGetSettings(t, "/get_settings" + rest, now);
    SnoozeMovesAlarm(s.alarm);
    RouteIndex(t, now);
  }

  /** `/get_settings` reports the reading taken for this request. */
  lemma RouteGetSettings(s: ClockState, path: string, now: DateTime)
    requires s.radio.Some? && Classify(path) == GetSettings
    ensures Route(s, path, now) == Served(s.(rtc := now), SettingsBody(CurrentSettings(s.(rtc := now))))
    ensures CurrentSettings(s.(rtc := now)).time == FormatTime(true, now.hour, now.minute, Some(now.second))
  {
    assert Route(s, path, now) == Handle(s.(rtc := now), GetSettings, path);
  }

  /** The index page shows the reading taken for this request. */
  lemma RouteIndex(s: ClockState, now: DateTime)
    ensures Route(s, "/", now) == Served(s.(rtc := now), Page(Index(s.(rtc := now))))
    ensures Index(s.(rtc := now)).time == FormatTime(true, now.hour, now.minute, Some(now.second))
  {
    assert Classify("/") == FileRequest;
    assert Route(s, "/", now) == Handle(s.(rtc := now), FileRequest, "/");
  }

  /** The path the set-alarm form submits. */
  function AlarmForm(h: int, m: int): string {
    "/set_alarm?" + EncodeQuery([("h", IntToString(h)), ("m", IntToString(m))])
  }

  /** A submitted set-time form writes exactly its three numbers into the
      clock reading and keeps the date. */
  lemma SetTimeRoundTrip(s: ClockState, h: int, m: int, sec: int, now: DateTime)
    ensures Route(s, TimeForm(h, m, sec), now) ==
      Served(s.(rtc := WithTimeOfDay(now, h, m, sec)), Redirect("/#TIME"))
  {
    var tail := TimeForm(h, m, sec)[|"/set_time"|..];
    assert TimeForm(h, m, sec) == "/set_time" + tail;
    ClassifySetTimeForm(tail);
    TimeFormFields(h, m, sec);
    RouteSetTime(s, TimeForm(h, m, sec), h, m, sec, now);
  }

  lemma RouteSetTime(s: ClockState, path: string, h: int, m: int, sec: int, now: DateTime)
    requires Classify(path) == SetTimeForm && TimeFields(path) == Some((h, m, sec))
    ensures Route(s, path, now) == Served(s.(rtc := WithTimeOfDay(now, h, m, sec)), Redirect("/#TIME"))
  {
    assert Route(s, path, now) == Handle(s.(rtc := now), SetTimeForm, path);
  }

  lemma AlarmFormQuery(h: int, m: int)
    ensures var q := ParseQuery(AlarmForm(h, m));
      && q.Some? && "h" in q.value && "m" in q.value
      && q.value["h"] == IntToString(h) && q.value["m"] == IntToString(m)
  {
    var ps := [("h", IntToString(h)), ("m", IntToString(m))];
    assert AlarmForm(h, m) == "/set_alarm" + "?" + EncodeQuery(ps);
    IntToStringClean(h);
    IntToStringClean(m);
    FormValue("/set_alarm", ps, 0);
    FormValue("/set_alarm", ps, 1);
  }

  lemma AlarmFormFields(h: int, m: int)
    ensures AlarmFields(AlarmForm(h, m)) == Some((h, m))
  {
    AlarmFormQuery(h, m);
    ParseIntRoundTrip(h);
    ParseIntRoundTrip(m);
  }

  /** A submitted set-alarm form sets both alarm times and switches it on. */
  lemma SetAlarmRoundTrip(s: ClockState, h: int, m: int, now: DateTime)
    ensures Route(s, AlarmForm(h, m), now) ==
      Served(s.(rtc := now, alarm := Alarm.SetTime(s.alarm, h, m)), Redirect("/#ALARM"))
  {
    var tail := AlarmForm(h, m)[|"/set_alarm"|..];
    assert AlarmForm(h, m) == "/set_alarm" + tail;
    ClassifySetAlarmForm(tail);
    AlarmFormFields(h, m);
    RouteSetAlarm(s, AlarmForm(h, m), h, m, now);
  }

  lemma RouteSetAlarm(s: ClockState, path: string, h: int, m: int, now: DateTime)
    requires Classify(path) == SetAlarmForm && AlarmFields(path) == Some((h, m))
    ensures Route(s, path, now) == Served(s.(rtc := now, alarm := Alarm.SetTime(s.alarm, h, m)), Redirect("/#ALARM"))
  {
    assert Route(s, path, now) == Handle(s.(rtc := now), SetAlarmForm, path);
  }

  /** The network stores the alarm as given: an hour past 23 is kept, the
      alarm reads as switched on, and no valid clock reading ever fires it. */
  lemma OutOfRangeAlarmNeverFires(s: ClockState, h: int, m: int, served: DateTime, now: DateTime)
    requires h >= 24 && ValidTimeOfDay(now)
    ensures var a := Route(s, AlarmForm(h, m), served).state.alarm;
      a.enabled && !InRange(a) && !Fires(a, now)
  {
    SetAlarmRoundTrip(s, h, m, served);
  }

  /** The path the mode selector submits. */
  function ModeForm(value: string): string {
    "/set_mode?" + EncodeQuery([("mode", value)])
  }

  lemma ModeFormQuery(value: string)
    requires Clean(value)
    ensures ParseQuery(ModeForm(value)) == Some(map["mode" := value])
  {
    var ps := [("mode", value)];
    var path := "/set_mode" + "?" + EncodeQuery(ps);
    assert ModeForm(value) == path;
    ParseQueryRoundTrip("/set_mode", ps);
    assert ToMap(ps) == map["mode" := value] by {
      assert ps[..0] == [];
    }
  }

  lemma ModeFormRoute(value: string)
    ensures Classify(ModeForm(value)) == SetModeForm
  {
    var tail := "?" + EncodeQuery([("mode", value)]);
    assert ModeForm(value) == "/set_mode" + tail;
    ClassifySetModeForm(tail);
  }

  /** A set-mode path whose query holds just `mode`: the upper-cased value
      selects the mode, if it names one. */
  lemma RouteSetMode(s: ClockState, path: string, value: string, now: DateTime)
    requires Classify(path) == SetModeForm && ParseQuery(path) == Some(map["mode" := value])
    ensures var t := s.(rtc := now);
      Route(s, path, now) == (match ModeFromName(Upper(value))
      case None => Served(t, BadRequest)
      case Some(m) =>
        if t.radio.None? then Served(t.(mode := m), BadRequest)
        else Served(MuteRadio(t.(mode := m), m != RadioMode), Accepted))
  {
    assert Route(s, path, now) == SetMode(s.(rtc := now), path);
  }

  /** Any spelling of a mode name is accepted; the radio is muted exactly
      when the new mode is not RADIO. */
  lemma SetModeAccepts(s: ClockState, value: string, m: Mode, now: DateTime)
    requires s.radio.Some? && Clean(value) && Upper(value) == ModeName(m)
    ensures var r := Route(s, ModeForm(value), now);
      && r.reply == Accepted && r.state.mode == m
      && r.state.radio.value.muted == (m != RadioMode)
  {
    ModeFormQuery(value);
    ModeFormRoute(value);
    RouteSetMode(s, ModeForm(value), value, now);
    ModeNameRoundTrip(m);
  }

  /** A name outside the whitelist is a 400 and changes nothing. */
  lemma SetModeRejects(s: ClockState, value: string, now: DateTime)
    requires Clean(value) && ModeFromName(Upper(value)).None?
    ensures Route(s, ModeForm(value), now) == Served(s.(rtc := now), BadRequest)
  {
    ModeFormQuery(value);
    ModeFormRoute(value);
    RouteSetMode(s, ModeForm(value), value, now);
  }

  /** The network changes the mode without leaving the edit mode, so the
      cursor bound of the buttons does not survive it: editing the TIME
      format field (cursor 2) and switching to RADIO makes the next redraw
      look up a caption that does not exist, and the redraw fails. */
  lemma SetModeBreaksCursor(s: ClockState, now: DateTime)
    requires WellFormed(s) && s.radio.Some? && s.mode == TimeMode && s.editing && s.editField == 2
    ensures var t := Route(s, ModeForm("radio"), now).state;
      && t.mode == RadioMode && t.editing && t.editField == 2
      && !WellFormed(t)
      && Render(t).frame.None?
  {
    assert Upper("radio") == "RADIO";
    SetModeAccepts(s, "radio", RadioMode, now);
  }

  /** Whatever requests arrive, the radio volume stays in `[0, VolumeMax]`
      and the editing flag and cursor are never touched, including when a
      request ends the loop. */
  lemma {:induction false} ServeKeepsVolume(s: ClockState, requests: seq<Request>)
    requires s.radio.Some? ==> 0 <= s.radio.value.volume <= VolumeMax
    ensures var t := Serve(s, requests);
      t.radio.Some? ==> 0 <= t.radio.value.volume <= VolumeMax
    decreases |requests|
  {
    if |requests| > 0 {
      var r := Route(s, requests[0].path, requests[0].now);
      RouteKeepsVolume(s, requests[0].path, requests[0].now);
      if r.reply != Halt {
        ServeKeepsVolume(r.state, requests[1..]);
      }
    }
  }

  /** One request keeps the volume in `[0, VolumeMax]`: only the volume
      routes change it, and they clamp. */
  lemma RouteKeepsVolume(s: ClockState, path: string, now: DateTime)
    requires s.radio.Some? ==> 0 <= s.radio.value.volume <= VolumeMax
    ensures var t := Route(s, path, now).state;
      t.radio.Some? ==> 0 <= t.radio.value.volume <= VolumeMax
  {
    var e := Classify(path);
    var t := s.(rtc := now);
    assert Route(s, path, now) == Handle(t, e, path);
    if e == SetModeForm {
      assert Handle(t, e, path) == SetMode(t, path);
    }
  }
}
