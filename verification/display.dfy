/** The pure pieces of what the clock draws: time text in 24- or 12-hour
    form, the edit caption of each screen, the signal-strength bar count,
    and the four-slot button-hint bar with its one-shot highlight. Pixel
    positions are not part of the model. */
module Display {
  import opened Util
  import opened Text
  import opened Controls
  import opened Arith

  /** Bars in the signal meter and the strength that fills all of them. */
  const NumBars: int := 4
  const MaxRssi: int := 70

  /** `hour % 12 or 12`: the 12-hour dial reading. */
  function Hour12(hour: int): (h: int)
    ensures 1 <= h <= 12
    ensures h % 12 == hour % 12
  {
    if hour % 12 == 0 then 12 else hour % 12
  }

  function Meridiem(hour: int): string {
    if hour < 12 then "AM" else "PM"
  }

  /** `format_time`: `HH:MM[:SS]` in 24-hour form, or the 12-hour dial
      reading followed by ` AM` / ` PM`. An in-range time has fixed
      columns: five characters, three more for the seconds, three more
      for the meridiem. */
  function FormatTime(format24: bool, hour: int, minute: int, second: Option<int>): (text: string)
    ensures 0 <= hour < 24 && 0 <= minute < 60 && (second.Some? ==> 0 <= second.value < 60) ==>
      && |text| == (if second.Some? then 8 else 5) + (if format24 then 0 else 3)
      && text[2] == ':' && (second.Some? ==> text[5] == ':')
    ensures !format24 ==> |text| >= 3 && text[|text| - 3..] == " " + Meridiem(hour)
  {
    var seconds := if second.Some? then ":" + Pad2(second.value) else "";
    var suffix := if format24 then "" else " " + Meridiem(hour);
    var a, b := Pad2(if format24 then hour else Hour12(hour)), Pad2(minute);
    Layout(a, b, seconds, suffix);
    a + ":" + b + seconds + suffix
  }

  /** Where the separators of `a:b`, then `seconds`, then `suffix` sit. */
  lemma Layout(a: string, b: string, seconds: string, suffix: string)
    ensures var s := a + ":" + b + seconds + suffix;
      && |s| == |a| + 1 + |b| + |seconds| + |suffix| && s[|a|] == ':'
      && s[|s| - |suffix|..] == suffix
      && (|a| == 2 && |b| == 2 && |seconds| > 0 ==> s[5] == seconds[0])
  {
    var s := a + ":" + b + seconds + suffix;
    assert s[|a|] == ':';
    if |a| == 2 && |b| == 2 && |seconds| > 0 {
      assert s[5] == seconds[0];
    }
  }

  /** In 24-hour form an in-range time is written as `HH:MM` (or
      `HH:MM:SS`) and the numbers can be read back from fixed columns. */
  lemma FormatTime24ReadsBack(hour: int, minute: int, second: Option<int>)
    requires 0 <= hour < 24 && 0 <= minute < 60
    requires second.Some? ==> 0 <= second.value < 60
    ensures var s := FormatTime(true, hour, minute, second);
      && |s| == (if second.Some? then 8 else 5)
      && TwoDigitValue(s, 0) == hour && s[2] == ':' && TwoDigitValue(s, 3) == minute
      && (second.Some? ==> s[5] == ':' && TwoDigitValue(s, 6) == second.value)
  {
    var seconds := if second.Some? then ":" + Pad2(second.value) else "";
    Columns(Pad2(hour), Pad2(minute), seconds);
    if second.Some? {
      SecondsColumn(Pad2(hour) + ":" + Pad2(minute), Pad2(second.value));
    }
  }

  /** Where the two numbers of `a:b...` sit, for two-character `a` and `b`. */
  lemma Columns(a: string, b: string, rest: string)
    requires |a| == 2 && |b| == 2
    ensures var s := a + ":" + b + rest;
      && |s| == 5 + |rest| && s[2] == ':'
      && TwoDigitValue(s, 0) == TwoDigitValue(a, 0) && TwoDigitValue(s, 3) == TwoDigitValue(b, 0)
  {
    var s := a + ":" + b + rest;
    assert s[0] == a[0] && s[1] == a[1] && s[3] == b[0] && s[4] == b[1];
  }

  /** Where the seconds sit after a five-character `HH:MM`. */
  lemma SecondsColumn(head: string, c: string)
    requires |head| == 5 && |c| == 2
    ensures var s := head + (":" + c);
      s[5] == ':' && TwoDigitValue(s, 6) == TwoDigitValue(c, 0)
  {
    var s := head + (":" + c);
    assert s[6] == c[0] && s[7] == c[1];
  }

  /** In 12-hour form an in-range time starts with its dial hour (1..12)
      and ends with the meridiem that tells morning from afternoon. */
  lemma FormatTime12ReadsBack(hour: int, minute: int)
    requires 0 <= hour < 24 && 0 <= minute < 60
    ensures var s := FormatTime(false, hour, minute, None);
      && |s| == 8
      && TwoDigitValue(s, 0) == Hour12(hour) && TwoDigitValue(s, 3) == minute
      && s[5..] == " " + Meridiem(hour)
      && (s[6..] == "AM" <==> hour < 12)
  {
    Columns(Pad2(Hour12(hour)), Pad2(minute), "" + " " + Meridiem(hour));
    var s := FormatTime(false, hour, minute, None);
    assert s == Pad2(Hour12(hour)) + ":" + Pad2(minute) + ("" + " " + Meridiem(hour));
    assert s[6..] == s[5..][1..] == Meridiem(hour);
  }

  /** Distinct in-range times give distinct 24-hour texts. */
  lemma FormatTime24Injective(h1: int, m1: int, h2: int, m2: int)
    requires 0 <= h1 < 24 && 0 <= m1 < 60 && 0 <= h2 < 24 && 0 <= m2 < 60
    requires FormatTime(true, h1, m1, None) == FormatTime(true, h2, m2, None)
    ensures h1 == h2 && m1 == m2
  {
    FormatTime24ReadsBack(h1, m1, None);
    FormatTime24ReadsBack(h2, m2, None);
  }

  /** The caption lists each screen shows while editing, indexed by the
      edit cursor. */
  function EditLabels(m: Mode): (labels: seq<string>)
    ensures |labels| == FieldCount(m)
  {
    match m
    case TimeMode => ["SET: Hour", "SET: Minute", "SET: Format"]
    case AlarmMode => ["Set: Hour", "Set: Minute", "Set: On/Off"]
    case RadioMode => ["SET: Frequency", "SET: Volume"]
  }

  /** `edit_labels[edit_field]`; `None` is the `IndexError` of a cursor
      past the end of the list. */
  function EditCaption(m: Mode, field: nat): (c: Option<string>)
    ensures c.Some? <==> field < FieldCount(m)
  {
    if field < |EditLabels(m)| then Some(EditLabels(m)[field]) else None
  }

  /** `int(strength // (MAX_RSSI / NUM_BARS))` clamped to `[0, NUM_BARS]`:
      buckets of width 17.5, computed exactly as `4 * strength // 70`. */
  function SignalBars(rssi: int): (bars: int)
    ensures 0 <= bars <= NumBars
    ensures bars == NumBars <==> rssi >= MaxRssi
    ensures bars == 0 <==> rssi * NumBars < MaxRssi
  {
    var x := rssi * NumBars;
    assert x == (x / MaxRssi) * MaxRssi + x % MaxRssi;
    Clamp(0, NumBars, x / MaxRssi)
  }

  /** Bar `k` (0 <= k < 4) is shown exactly for strengths in
      `[17.5 k, 17.5 (k + 1))`. */
  lemma SignalBarsBuckets(rssi: int, k: int)
    requires 0 < k < NumBars
    ensures SignalBars(rssi) == k <==> k * MaxRssi <= rssi * NumBars < (k + 1) * MaxRssi
  {
    var q := (rssi * NumBars) / MaxRssi;
    assert rssi * NumBars == q * MaxRssi + (rssi * NumBars) % MaxRssi;
    if q == k {
      assert k * MaxRssi <= rssi * NumBars < (k + 1) * MaxRssi;
    }
    if k * MaxRssi <= rssi * NumBars < (k + 1) * MaxRssi {
      ModUnique(rssi * NumBars, MaxRssi, k, rssi * NumBars - k * MaxRssi);
    }
  }

  /** A stronger signal never shows fewer bars. */
  lemma SignalBarsMonotone(a: int, b: int)
    requires a <= b
    ensures SignalBars(a) <= SignalBars(b)
  {
    var x := a * NumBars;
    var y := b * NumBars;
    assert x <= y;
    DivMonotone(x, y, MaxRssi);
  }

  const Blank: string := "    "

  /** The labels of the four hint slots (UP, DOWN, MODE, SET). */
  function HintBar(editing: bool, triggered: bool): (labels: seq<string>)
    ensures |labels| == 4
    ensures labels[0] == (if editing then "UP" else Blank)
    ensures labels[1] == (if editing then "DOWN" else Blank)
    ensures labels[2] == (if triggered then "RST" else if editing then "NEXT" else "MODE")
    ensures labels[3] == (if triggered then "SNOZ" else if editing then "DONE" else "SET")
  {
    var base := [Blank, Blank, "MODE", "SET"];
    var edited := if editing then ["UP", "DOWN", "NEXT", "DONE"] else base;
    if triggered then edited[2 := "RST"][3 := "SNOZ"] else edited
  }

  /** The slot underlined for the last pressed button: the one whose mask
      equals the button's mask. */
  function Highlight(last: Option<Button>): (slot: Option<nat>)
    ensures slot.Some? <==> last.Some?
    ensures slot.Some? ==> slot.value < |SlotMasks| && SlotMasks[slot.value] == Mask(last.value)
    ensures slot.Some? ==> forall i :: 0 <= i < |SlotMasks| && SlotMasks[i] == Mask(last.value) ==> i == slot.value
  {
    match last
    case None => None
    case Some(b) =>
      Some(match b
        case UpButton => 0
        case DownButton => 1
        case ModeButton => 2
        case SetButton => 3)
  }

  /** The pushable-button mask the hint bar publishes: MODE and SET, plus
      UP and DOWN while editing. */
  function ButtonsEnabled(editing: bool): (mask: int)
    ensures mask == Mask(ModeButton) + Mask(SetButton) + (if editing then Mask(UpButton) + Mask(DownButton) else 0)
  {
    if editing then 15 else 3
  }
}
