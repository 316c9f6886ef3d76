/** The earlier web server of the clock (the station-mode variant): its
    set-time form may give the hour on the 12-hour dial with a meridiem,
    and a second form switches the display format. Every request is
    answered with a page: the index page after a form, otherwise the file
    the path names. */
module TimeFormServer {
  import opened Util
  import opened Text
  import opened Rtc
  import opened Display
  import opened Clock
  import opened Query

  /** The hour a set-time form means: with format `12`, a PM hour below
      12 moves to the afternoon and 12 AM is midnight; any other format,
      meridiem or hour is taken as a 24-hour value. */
  function To24(format: string, amPm: string, h: int): (r: int)
    ensures format != "12" ==> r == h
    ensures r != h ==> format == "12" && ((amPm == "PM" && h < 12 && r == h + 12) || (amPm == "AM" && h == 12 && r == 0))
  {
    if format == "12" then
      if amPm == "PM" && h < 12 then h + 12
      else if amPm == "AM" && h == 12 then 0
      else h
    else h
  }

  /** On the 12-hour dial the conversion inverts the display: it reads
      back the hour the 12-hour display shows together with its meridiem. */
  lemma To24InvertsDisplay(hour: int)
    requires 0 <= hour < 24
    ensures To24("12", Meridiem(hour), Hour12(hour)) == hour
  {
  }

  /** And the display inverts the conversion: every dial hour with either
      meridiem lands on a 24-hour hour whose display shows them again. So
      the dial hours 1..12 with AM/PM correspond one to one with 0..23. */
  lemma DisplayInvertsTo24(h: int, amPm: string)
    requires 1 <= h <= 12 && (amPm == "AM" || amPm == "PM")
    ensures 0 <= To24("12", amPm, h) < 24
    ensures Hour12(To24("12", amPm, h)) == h && Meridiem(To24("12", amPm, h)) == amPm
  {
  }

  lemma To24Injective(h1: int, p1: string, h2: int, p2: string)
    requires 1 <= h1 <= 12 && (p1 == "AM" || p1 == "PM")
    requires 1 <= h2 <= 12 && (p2 == "AM" || p2 == "PM")
    requires To24("12", p1, h1) == To24("12", p2, h2)
    ensures h1 == h2 && p1 == p2
  {
    DisplayInvertsTo24(h1, p1);
    DisplayInvertsTo24(h2, p2);
  }

  /** `query.get(key, default)`. */
  function Get(q: map<string, string>, key: string, default: string): (v: string)
    ensures key in q ==> v == q[key]
    ensures key !in q ==> v == default
  {
    if key in q then q[key] else default
  }

  /** `handle_set_time` of this server: after hour, minute and second have
      parsed, the meridiem (default `AM`) is stored on the clock, and the
      hour is converted by the format (default `24`) before it is written.
      A failed parse changes nothing. */
  function SetTime(s: ClockState, path: string): (r: ClockState)
    ensures r == s.(rtc := r.rtc, amPm := r.amPm)
    ensures r.rtc == WithTimeOfDay(s.rtc, r.rtc.hour, r.rtc.minute, r.rtc.second)
    ensures TimeFields(path).None? ==> r == s
    ensures TimeFields(path).Some? ==>
      var f := TimeFields(path).value;
      var q := ParseQuery(path).value;
      && r.amPm == Some(Get(q, "am_pm", "AM"))
      && r.rtc.hour == To24(Get(q, "format", "24"), Get(q, "am_pm", "AM"), f.0)
      && r.rtc.minute == f.1 && r.rtc.second == f.2
  {
    match TimeFields(path)
    case None => s
    case Some(f) =>
      var q := ParseQuery(path).value;
      var amPm := Get(q, "am_pm", "AM");
      var hour := To24(Get(q, "format", "24"), amPm, f.0);
      s.(amPm := Some(amPm), rtc := WithTimeOfDay(s.rtc, hour, f.1, f.2))
  }

  /** The values the index page template of this server is filled with. */
  datatype IndexView = IndexView(time: string, checked: bool, format24: string)

  datatype Reply = Page(view: IndexView) | StaticFile(path: string)

  function Index(s: ClockState): (v: IndexView)
    ensures v.time == GetTime(s) && v.checked == s.format24
    ensures v.format24 == (if s.format24 then "true" else "false")
  {
    IndexView(GetTime(s), s.format24, if s.format24 then "true" else "false")
  }

  /** One request, served when the clock reads `now` (the set-time form
      and the index page both read the real-time clock afresh): the two
      forms, then the page for the (possibly rewritten) path. */
  function Route(s: ClockState, path: string, now: DateTime): (r: (ClockState, Reply))
    ensures var t := s.(rtc := now);
      StartsWith(path, "/set_time") ==> r == (SetTime(t, path), Page(Index(SetTime(t, path))))
    ensures !StartsWith(path, "/set_time") && StartsWith(path, "/set_format") ==>
      r == (s.(rtc := now, format24 := StartsWith(path, "/set_format?format=24")), Page(Index(r.0)))
    ensures !StartsWith(path, "/set_time") && !StartsWith(path, "/set_format") ==>
      && r.0 == s.(rtc := now)
      && r.1 == (if path in {"/", "/on?", "/off?"} then Page(Index(r.0)) else StaticFile(path))
  {
    var current := s.(rtc := now);
    var (t, page) :=
      if StartsWith(path, "/set_time") then (SetTime(current, path), "/")
      else if StartsWith(path, "/set_format?format=24") then (current.(format24 := true), "/")
      else if StartsWith(path, "/set_format") then (current.(format24 := false), "/")
      else (current, path);
    assert StartsWith(path, "/set_format?format=24") ==> StartsWith(path, "/set_format") by {
      if StartsWith(path, "/set_format?format=24") {
        assert path[..11] == path[..21][..11];
      }
    }
    if page == "/" || page == "/on?" || page == "/off?" then (t, Page(Index(t)))
    else (t, StaticFile(page))
  }

  /** Without a format field the hour is written as given, whatever the
      meridiem says. */
  lemma DefaultFormatVerbatim(s: ClockState, path: string)
    requires TimeFields(path).Some? && "format" !in ParseQuery(path).value
    ensures SetTime(s, path).rtc.hour == TimeFields(path).value.0
  {
  }

  /** The set-time form on the 12-hour dial for a given hour of the day. */
  function TwelveHourForm(hour: int, m: int, sec: int): string {
    "/set_time?" + EncodeQuery([
      ("h", IntToString(Hour12(hour))), ("m", IntToString(m)), ("s", IntToString(sec)),
      ("format", "12"), ("am_pm", Meridiem(hour))])
  }

  lemma TwelveHourFormQuery(hour: int, m: int, sec: int)
    ensures var q := ParseQuery(TwelveHourForm(hour, m, sec));
      && q.Some?
      && "h" in q.value && q.value["h"] == IntToString(Hour12(hour))
      && "m" in q.value && q.value["m"] == IntToString(m)
      && "s" in q.value && q.value["s"] == IntToString(sec)
      && "format" in q.value && q.value["format"] == "12"
      && "am_pm" in q.value && q.value["am_pm"] == Meridiem(hour)
  {
    IntToStringClean(Hour12(hour));
    IntToStringClean(m);
    IntToStringClean(sec);
    TwelveHourFields(IntToString(Hour12(hour)), IntToString(m), IntToString(sec), Meridiem(hour));
  }

  /** The five fields of the 12-hour form read back from its path. */
  lemma TwelveHourFields(vh: string, vm: string, vs: string, vp: string)
    requires Clean(vh) && Clean(vm) && Clean(vs) && Clean(vp)
    ensures var q := ParseQuery("/set_time?" + EncodeQuery([
        ("h", vh), ("m", vm), ("s", vs), ("format", "12"), ("am_pm", vp)]));
      && q.Some?
      && "h" in q.value && q.value["h"] == vh
      && "m" in q.value && q.value["m"] == vm
      && "s" in q.value && q.value["s"] == vs
      && "format" in q.value && q.value["format"] == "12"
      && "am_pm" in q.value && q.value["am_pm"] == vp
  {
    var ps := [("h", vh), ("m", vm), ("s", vs), ("format", "12"), ("am_pm", vp)];
    assert "/set_time?" + EncodeQuery(ps) == "/set_time" + "?" + EncodeQuery(ps);
    FormValue("/set_time", ps, 0);
    FormValue("/set_time", ps, 1);
    FormValue("/set_time", ps, 2);
    FormValue("/set_time", ps, 3);
    FormValue("/set_time", ps, 4);
  }

  /** The 12-hour form submitted with the hour the display shows and its
      meridiem sets the clock to that hour of the day. */
  lemma TwelveHourFormRoundTrip(s: ClockState, hour: int, m: int, sec: int)
    requires 0 <= hour < 24
    ensures var r := SetTime(s, TwelveHourForm(hour, m, sec));
      r.rtc == WithTimeOfDay(s.rtc, hour, m, sec) && r.amPm == Some(Meridiem(hour))
  {
    TwelveHourFormQuery(hour, m, sec);
    ParseIntRoundTrip(Hour12(hour));
    ParseIntRoundTrip(m);
    ParseIntRoundTrip(sec);
    assert TimeFields(TwelveHourForm(hour, m, sec)) == Some((Hour12(hour), m, sec));
    To24InvertsDisplay(hour);
  }

  /** The format form: a path starting `/set_format?format=24` selects the
      24-hour display, any other `/set_format` path the 12-hour one; either
      way the index page is served. */
  lemma SetFormatRoute(s: ClockState, rest: string, now: DateTime)
    ensures Route(s, "/set_format?format=24" + rest, now).0 == s.(rtc := now, format24 := true)
    ensures Route(s, "/set_format?format=12" + rest, now).0 == s.(rtc := now, format24 := false)
    ensures Route(s, "/set_format?format=24" + rest, now).1.Page?
  {
    var p24 := "/set_format?format=24" + rest;
    var p12 := "/set_format?format=12" + rest;
    assert StartsWith(p24, "/set_format?format=24") by { assert p24[..21] == "/set_format?format=24"; }
    assert StartsWith(p12, "/set_format") by { assert p12[..11] == "/set_format"; }
    assert !StartsWith(p12, "/set_format?format=24") by { assert p12[20] == '2'; }
    assert !StartsWith(p24, "/set_time") by { assert p24[5] == 'f'; }
    assert !StartsWith(p12, "/set_time") by { assert p12[5] == 'f'; }
  }
}
