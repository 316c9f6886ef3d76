/** The alarm scheduler of the clock controller: when the alarm fires,
    how snoozing pushes it later by a shrinking number of minutes, and how a
    reset brings back the time the user set. */
module Alarm {
  import opened Rtc
  import opened Arith

  const MinutesPerDay: int := 24 * 60

  /** `hour`/`minute` is the effective next firing time; `originalHour`/
      `originalMinute` is the time a reset returns to. */
  datatype AlarmState = AlarmState(
    hour: int, minute: int, enabled: bool,
    originalHour: int, originalMinute: int,
    snoozeCount: nat, triggered: bool, snoozed: bool)

  /** The power-on alarm: 07:00, disabled, quiet. */
  const Initial: AlarmState := AlarmState(7, 0, false, 7, 0, 0, false, false)

  /** Both the effective and the original time lie on the 24h x 60m wheel. */
  predicate InRange(a: AlarmState) {
    && 0 <= a.hour < 24 && 0 <= a.minute < 60
    && 0 <= a.originalHour < 24 && 0 <= a.originalMinute < 60
  }

  function MinuteOfDay(hour: int, minute: int): int {
    hour * 60 + minute
  }

  /** The firing rule, sampled once per reading: enabled, not already
      ringing, and the reading is exactly second 0 of the alarm minute. */
  predicate Fires(a: AlarmState, now: DateTime) {
    a.enabled && !a.triggered && now.hour == a.hour && now.minute == a.minute && now.second == 0
  }

  /** Polls the alarm against a clock reading. A firing that does not
      follow a snooze opens a new episode: it records the current time as
      the one to return to and restarts the snooze count. */
  function Check(a: AlarmState, now: DateTime): (r: AlarmState)
    ensures !Fires(a, now) ==> r == a
    ensures Fires(a, now) ==> r.triggered && r.hour == a.hour && r.minute == a.minute
    ensures Fires(a, now) ==> r.enabled == a.enabled && r.snoozed == a.snoozed
    ensures Fires(a, now) && !a.snoozed ==>
      r.originalHour == a.hour && r.originalMinute == a.minute && r.snoozeCount == 0
    ensures Fires(a, now) && a.snoozed ==>
      r.originalHour == a.originalHour && r.originalMinute == a.originalMinute && r.snoozeCount == a.snoozeCount
    ensures r.triggered <==> a.triggered || Fires(a, now)
  {
    if Fires(a, now) then
      var episode :=
        if a.snoozed then a
        else a.(originalHour := a.hour, originalMinute := a.minute, snoozeCount := 0);
      episode.(triggered := true)
    else a
  }

  /** The alarm rings once per firing: polling again with the same (or
      any other) reading changes nothing while it rings. */
  lemma CheckOnceRinging(a: AlarmState, now: DateTime, later: DateTime)
    ensures Check(Check(a, now), now) == Check(a, now)
    ensures Check(a, now).triggered ==> Check(Check(a, now), later) == Check(a, now)
  {
  }

  /** Snooze length after the `count`-th snooze: `max(1, 10 // count)`. */
  function SnoozeMinutes(count: nat): (m: int)
    requires count >= 1
    ensures 1 <= m <= 10
    ensures count >= 6 ==> m == 1
  {
    var q := 10 / count;
    if q < 1 then 1 else q
  }

  /** The lengths are 10, 5, 3, 2, 2, 1, 1, ... */
  lemma SnoozeMinutesValues()
    ensures SnoozeMinutes(1) == 10 && SnoozeMinutes(2) == 5 && SnoozeMinutes(3) == 3
    ensures SnoozeMinutes(4) == 2 && SnoozeMinutes(5) == 2 && SnoozeMinutes(6) == 1
  {
  }

  /** Later snoozes are never longer than earlier ones. */
  lemma SnoozeMinutesNonIncreasing(i: nat, j: nat)
    requires 1 <= i <= j
    ensures SnoozeMinutes(j) <= SnoozeMinutes(i)
  {
    DivAntitone(10, i, j);
  }

  /** Splitting a minute count into hour and minute of the day. */
  lemma WheelSplit(total: int)
    ensures ((total / 60) % 24) * 60 + total % 60 == total % MinutesPerDay
  {
    var q := total / 60;
    var h := q % 24;
    var p := q / 24;
    var m := total % 60;
    assert total == q * 60 + m;
    assert q == p * 24 + h;
    assert total == p * MinutesPerDay + (h * 60 + m);
    ModUnique(total, MinutesPerDay, p, h * 60 + m);
  }

  /** Moves a time `k` minutes forward on the 24h x 60m wheel:
      `total = hour * 60 + minute + k`, then `(total // 60) % 24` and
      `total % 60`. */
  function Advance(hour: int, minute: int, k: int): (t: (int, int))
    ensures 0 <= t.0 < 24 && 0 <= t.1 < 60
    ensures MinuteOfDay(t.0, t.1) == (MinuteOfDay(hour, minute) + k) % MinutesPerDay
  {
    var total := hour * 60 + minute + k;
    WheelSplit(total);
    ((total / 60) % 24, total % 60)
  }

  /** Snoozes a ringing alarm: it stops ringing, is marked snoozed, the
      count goes up by one, and the effective time moves forward by that
      snooze's length on the wheel. */
  function Snooze(a: AlarmState): (r: AlarmState)
    ensures !r.triggered && r.snoozed && r.snoozeCount == a.snoozeCount + 1
    ensures 0 <= r.hour < 24 && 0 <= r.minute < 60
    ensures MinuteOfDay(r.hour, r.minute)
      == (MinuteOfDay(a.hour, a.minute) + SnoozeMinutes(r.snoozeCount)) % MinutesPerDay
    ensures r.enabled == a.enabled
    ensures r.originalHour == a.originalHour && r.originalMinute == a.originalMinute
  {
    var count := a.snoozeCount + 1;
    var t := Advance(a.hour, a.minute, SnoozeMinutes(count));
    a.(triggered := false, snoozed := true, snoozeCount := count, hour := t.0, minute := t.1)
  }

  /** Ends the episode: quiet, not snoozed, count 0, and the effective time
      back at the original. */
  function Reset(a: AlarmState): (r: AlarmState)
    ensures !r.triggered && !r.snoozed && r.snoozeCount == 0
    ensures r.hour == a.originalHour && r.minute == a.originalMinute
    ensures r.originalHour == a.originalHour && r.originalMinute == a.originalMinute
    ensures r.enabled == a.enabled
  {
    a.(triggered := false, snoozed := false, snoozeCount := 0, hour := a.originalHour, minute := a.originalMinute)
  }

  /** Snoozing never changes what a reset returns to, and a reset is idempotent. */
  lemma ResetAbsorbsSnooze(a: AlarmState)
    ensures Reset(Snooze(a)) == Reset(a)
    ensures Reset(Reset(a)) == Reset(a)
  {
  }

  /** The network's set-alarm: the given time becomes both the effective
      and the original time, and the alarm is switched on. The values are
      stored as given, with no wheel reduction; the ringing and snooze state
      is left alone. */
  function SetTime(a: AlarmState, hour: int, minute: int): (r: AlarmState)
    ensures r.hour == hour && r.minute == minute && r.originalHour == hour && r.originalMinute == minute
    ensures r.enabled
    ensures r.triggered == a.triggered && r.snoozed == a.snoozed && r.snoozeCount == a.snoozeCount
  {
    a.(originalHour := hour, originalMinute := minute, hour := hour, minute := minute, enabled := true)
  }

  /** A set-alarm in the middle of an episode changes what a reset restores. */
  lemma ResetAfterSetTime(a: AlarmState, hour: int, minute: int)
    ensures Reset(SetTime(a, hour, minute)).hour == hour
    ensures Reset(SetTime(a, hour, minute)).minute == minute
  {
  }

  /** The ALARM-screen hour edit: the effective hour only, on the 24-hour wheel. */
  function NudgeHour(a: AlarmState, delta: int): (r: AlarmState)
    ensures 0 <= r.hour < 24 && r.hour == (a.hour + delta) % 24
    ensures r == a.(hour := r.hour)
  {
    a.(hour := (a.hour + delta) % 24)
  }

  /** The ALARM-screen minute edit: the effective minute only, on the 60-minute wheel. */
  function NudgeMinute(a: AlarmState, delta: int): (r: AlarmState)
    ensures 0 <= r.minute < 60 && r.minute == (a.minute + delta) % 60
    ensures r == a.(minute := r.minute)
  {
    a.(minute := (a.minute + delta) % 60)
  }

  function NudgeHourTimes(a: AlarmState, delta: int, n: nat): AlarmState
    decreases n
  {
    if n == 0 then a else NudgeHour(NudgeHourTimes(a, delta, n - 1), delta)
  }

  /** `n` hour edits of `delta` add `n * delta` on the 24-hour wheel. */
  lemma {:induction false} NudgeHourWheel(a: AlarmState, delta: int, n: nat)
    requires n >= 1
    ensures NudgeHourTimes(a, delta, n).hour == (a.hour + n * delta) % 24
    ensures NudgeHourTimes(a, delta, n) == a.(hour := NudgeHourTimes(a, delta, n).hour)
    decreases n
  {
    if n > 1 {
      NudgeHourWheel(a, delta, n - 1);
      ModAddStep(a.hour + (n - 1) * delta, delta, 24);
    }
  }

  /** Wheel closure: 24 presses of UP (or of DOWN) bring the hour back. */
  lemma NudgeHourClosure(a: AlarmState, delta: int)
    requires 0 <= a.hour < 24
    ensures NudgeHourTimes(a, delta, 24) == a
  {
    NudgeHourWheel(a, delta, 24);
    ModUnique(a.hour + 24 * delta, 24, delta, a.hour);
  }

  /** UP then DOWN on the minute is the identity on in-range minutes. */
  lemma NudgeMinuteUpDown(a: AlarmState)
    requires 0 <= a.minute < 60
    ensures NudgeMinute(NudgeMinute(a, 1), -1) == a
  {
  }

  function ToggleEnabled(a: AlarmState): (r: AlarmState)
    ensures r.enabled == !a.enabled
    ensures r == a.(enabled := r.enabled)
  {
    a.(enabled := !a.enabled)
  }

  /** Everything that can happen to the alarm between the start of an
      episode and its reset. */
  datatype AlarmEvent =
    | Poll(now: DateTime)
    | SnoozeEvent
    | HourEdit(hourDelta: int)
    | MinuteEdit(minuteDelta: int)
    | EnabledToggle
    | EnabledSet(on: bool)

  function Apply(a: AlarmState, e: AlarmEvent): AlarmState {
    match e
    case Poll(now) => Check(a, now)
    case SnoozeEvent => Snooze(a)
    case HourEdit(d) => NudgeHour(a, d)
    case MinuteEdit(d) => NudgeMinute(a, d)
    case EnabledToggle => ToggleEnabled(a)
    case EnabledSet(on) => a.(enabled := on)
  }

  function Run(a: AlarmState, events: seq<AlarmEvent>): AlarmState
    decreases |events|
  {
    if |events| == 0 then a else Run(Apply(a, events[0]), events[1..])
  }

  function CountSnoozes(events: seq<AlarmEvent>): nat
    decreases |events|
  {
    if |events| == 0 then 0 else (if events[0].SnoozeEvent? then 1 else 0) + CountSnoozes(events[1..])
  }

  /** An episode, once open (ringing or snoozed), stays open until a reset;
      during it the original time never moves and the count is the number
      of snoozes. */
  lemma {:induction false} EpisodeKeepsOriginal(a: AlarmState, events: seq<AlarmEvent>)
    requires a.triggered || a.snoozed
    ensures Run(a, events).triggered || Run(a, events).snoozed
    ensures Run(a, events).originalHour == a.originalHour
    ensures Run(a, events).originalMinute == a.originalMinute
    ensures Run(a, events).snoozeCount == a.snoozeCount + CountSnoozes(events)
    decreases |events|
  {
    if |events| > 0 {
      EpisodeKeepsOriginal(Apply(a, events[0]), events[1..]);
    }
  }

  /** The snooze/reset round trip: after a fresh firing, any mix of
      snoozes, re-firings and edits of the effective time, followed by a
      reset, brings the alarm back to the time it first fired at, with the
      count cleared and both flags down. */
  lemma ResetRestoresEpisodeStart(a: AlarmState, now: DateTime, events: seq<AlarmEvent>)
    requires Fires(a, now) && !a.snoozed
    ensures Reset(Run(Check(a, now), events)).hour == a.hour
    ensures Reset(Run(Check(a, now), events)).minute == a.minute
    ensures Run(Check(a, now), events).snoozeCount == CountSnoozes(events)
  {
    EpisodeKeepsOriginal(Check(a, now), events);
  }

  function SnoozeTimes(a: AlarmState, n: nat): AlarmState
    decreases n
  {
    if n == 0 then a else Snooze(SnoozeTimes(a, n - 1))
  }

  /** The total delay of the snoozes numbered `count + 1` .. `count + n`. */
  function SnoozeOffset(count: nat, n: nat): nat
    decreases n
  {
    if n == 0 then 0 else SnoozeOffset(count, n - 1) + SnoozeMinutes(count + n)
  }

  /** Where the alarm sits on the wheel after `n` snoozes from minute
      `start`, snoozing once at a time from count `count`. */
  function WheelAfter(start: int, count: nat, n: nat): int
    decreases n
  {
    if n == 0 then start else (WheelAfter(start, count, n - 1) + SnoozeMinutes(count + n)) % MinutesPerDay
  }

  /** `n` snoozes in a row follow the wheel and count `n`. */
  lemma {:induction false} SnoozeTimesWheel(a: AlarmState, n: nat)
    ensures SnoozeTimes(a, n).snoozeCount == a.snoozeCount + n
    ensures MinuteOfDay(SnoozeTimes(a, n).hour, SnoozeTimes(a, n).minute)
      == WheelAfter(MinuteOfDay(a.hour, a.minute), a.snoozeCount, n)
    decreases n
  {
    if n > 0 {
      SnoozeTimesWheel(a, n - 1);
      SnoozeTimesStep(a, n);
    }
  }

  /** The last of `n` snoozes, on the wheel. */
  lemma SnoozeTimesStep(a: AlarmState, n: nat)
    requires n > 0 && SnoozeTimes(a, n - 1).snoozeCount == a.snoozeCount + n - 1
    requires MinuteOfDay(SnoozeTimes(a, n - 1).hour, SnoozeTimes(a, n - 1).minute)
      == WheelAfter(MinuteOfDay(a.hour, a.minute), a.snoozeCount, n - 1)
    ensures SnoozeTimes(a, n).snoozeCount == a.snoozeCount + n
    ensures MinuteOfDay(SnoozeTimes(a, n).hour, SnoozeTimes(a, n).minute)
      == WheelAfter(MinuteOfDay(a.hour, a.minute), a.snoozeCount, n)
  {
    assert SnoozeTimes(a, n) == Snooze(SnoozeTimes(a, n - 1));
  }

  /** Moves on the wheel add up: after at least one snooze the position is
      the start plus the total delay, taken once around the day. */
  lemma {:induction false} WheelAfterOffset(start: int, count: nat, n: nat)
    requires n > 0
    ensures WheelAfter(start, count, n) == (start + SnoozeOffset(count, n)) % MinutesPerDay
    decreases n
  {
    if n > 1 {
      WheelAfterOffset(start, count, n - 1);
      ModAddStep(start + SnoozeOffset(count, n - 1), SnoozeMinutes(count + n), MinutesPerDay);
    }
  }

  /** `n` snoozes in a row move the alarm by the sum of their lengths
      on the wheel and count `n`. */
  lemma SnoozeTimesOffset(a: AlarmState, n: nat)
    ensures SnoozeTimes(a, n).snoozeCount == a.snoozeCount + n
    ensures n > 0 ==>
      MinuteOfDay(SnoozeTimes(a, n).hour, SnoozeTimes(a, n).minute)
      == (MinuteOfDay(a.hour, a.minute) + SnoozeOffset(a.snoozeCount, n)) % MinutesPerDay
  {
    SnoozeTimesWheel(a, n);
    if n > 0 {
      WheelAfterOffset(MinuteOfDay(a.hour, a.minute), a.snoozeCount, n);
    }
  }

  /** A snooze always moves the effective alarm time off the time it rang at. */
  lemma SnoozeMovesAlarm(a: AlarmState)
    requires InRange(a)
    ensures (Snooze(a).hour, Snooze(a).minute) != (a.hour, a.minute)
  {
    var r := Snooze(a);
    var k := SnoozeMinutes(r.snoozeCount);
    var x := MinuteOfDay(a.hour, a.minute);
    assert 0 <= x < MinutesPerDay && 1 <= k <= 10;
    if x + k < MinutesPerDay {
      ModUnique(x + k, MinutesPerDay, 0, x + k);
    } else {
      ModUnique(x + k, MinutesPerDay, 1, x + k - MinutesPerDay);
    }
  }

  /** From an alarm that fired at 06:58: 07:08, then 07:13, then 07:16. */
  lemma SnoozeExample(a: AlarmState)
    requires a.hour == 6 && a.minute == 58 && a.snoozeCount == 0
    ensures SnoozeTimes(a, 1).hour == 7 && SnoozeTimes(a, 1).minute == 8
    ensures SnoozeTimes(a, 2).hour == 7 && SnoozeTimes(a, 2).minute == 13
    ensures SnoozeTimes(a, 3).hour == 7 && SnoozeTimes(a, 3).minute == 16
  {
    SnoozeMinutesValues();
  }
}
