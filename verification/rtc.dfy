/** The real-time clock as the firmware sees it: the eight-field tuple
    `(year, month, day, weekday, hour, minute, second, subsecond)` that
    `rtc.datetime()` returns and accepts. The clock keeps running on its own;
    the model receives each fresh reading as an input. */
module Rtc {

  datatype DateTime = DateTime(
    year: int, month: int, day: int, weekday: int,
    hour: int, minute: int, second: int, subsecond: int)

  /** The time-of-day fields are inside their wheels. */
  predicate ValidTimeOfDay(t: DateTime) {
    0 <= t.hour < 24 && 0 <= t.minute < 60 && 0 <= t.second < 60
  }

  /** Writes hour, minute and second (tuple indices 4, 5 and 6) and keeps
      every other field. */
  function WithTimeOfDay(t: DateTime, hour: int, minute: int, second: int): (r: DateTime)
    ensures r.hour == hour && r.minute == minute && r.second == second
    ensures r.year == t.year && r.month == t.month && r.day == t.day
    ensures r.weekday == t.weekday && r.subsecond == t.subsecond
  {
    t.(hour := hour, minute := minute, second := second)
  }
}
