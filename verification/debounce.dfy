/** The software debounce filter behind each push button. The pin has a
    pull-up, so a press pulls it to 0. On every edge interrupt the filter
    reads the microsecond tick counter; it looks at the pin only when the
    debounce window since the last accepted edge has passed, accepts the
    edge only when the level really changed, and reports a press on an
    accepted edge to 0. Tick readings are unbounded integers here. */
module Debounce {
  /** A pin reading. */
  type Level = x: int | 0 <= x <= 1

  /** The window used when the constructor is not given one, in µs. */
  const DefaultDebounceUs: int := 5000

  /** `debounceUs` is the window, `lastTime` the tick reading of the last
      accepted edge (or of construction), `state` the last stable level. */
  datatype Debouncer = Debouncer(debounceUs: int, lastTime: int, state: Level)

  /** The filter after one edge, and whether it called the press callback. */
  datatype Outcome = Outcome(button: Debouncer, fired: bool)

  /** Construction at tick `now` with the pin reading `level`: the first
      window is measured from construction. */
  function New(now: int, level: Level, debounceUs: int := DefaultDebounceUs): (d: Debouncer)
    ensures d.debounceUs == debounceUs && d.lastTime == now && d.state == level
  {
    Debouncer(debounceUs, now, level)
  }

  /** Whether an edge at `now` with the pin at `level` is accepted. */
  predicate Accepts(d: Debouncer, now: int, level: Level) {
    now - d.lastTime >= d.debounceUs && level != d.state
  }

  /** The edge interrupt handler. */
  function Handler(d: Debouncer, now: int, level: Level): (o: Outcome)
    ensures o.button.debounceUs == d.debounceUs
    ensures now - d.lastTime < d.debounceUs ==> o == Outcome(d, false)
    ensures level == d.state ==> o == Outcome(d, false)
    ensures Accepts(d, now, level) ==> o.button == d.(state := level, lastTime := now)
    ensures o.fired <==> Accepts(d, now, level) && level == 0
  {
    if now - d.lastTime >= d.debounceUs then
      if level != d.state then Outcome(d.(state := level, lastTime := now), level == 0)
      else Outcome(d, false)
    else Outcome(d, false)
  }

  /** An edge interrupt: its tick reading and the level the pin then reads. */
  datatype Edge = Edge(at: int, level: Level)

  function Feed(d: Debouncer, edges: seq<Edge>): Debouncer
    decreases |edges|
  {
    if |edges| == 0 then d else Feed(Handler(d, edges[0].at, edges[0].level).button, edges[1..])
  }

  /** The tick readings at which the press callback ran, in order. */
  function FireTimes(d: Debouncer, edges: seq<Edge>): (fs: seq<int>)
    ensures |fs| <= |edges|
    decreases |edges|
  {
    if |edges| == 0 then []
    else
      var o := Handler(d, edges[0].at, edges[0].level);
      (if o.fired then [edges[0].at] else []) + FireTimes(o.button, edges[1..])
  }

  predicate Spaced(fs: seq<int>, gap: int) {
    forall i :: 0 <= i < |fs| - 1 ==> fs[i + 1] - fs[i] >= gap
  }

  /** After a press at tick `t`, the filter still has to accept a release
      before the next press: either it is still low with its window opened
      no earlier than `t`, or it is high with its window opened at least
      one debounce window after `t`. */
  predicate ArmedAfter(d: Debouncer, t: int) {
    || (d.state == 0 && d.lastTime >= t)
    || (d.state == 1 && d.lastTime >= t + d.debounceUs)
  }

  lemma {:induction false} FiresAfter(d: Debouncer, edges: seq<Edge>, t: int)
    requires ArmedAfter(d, t)
    ensures var fs := FireTimes(d, edges);
      Spaced(fs, 2 * d.debounceUs) && (|fs| > 0 ==> fs[0] >= t + 2 * d.debounceUs)
    decreases |edges|
  {
    if |edges| > 0 {
      var e := edges[0];
      var o := Handler(d, e.at, e.level);
      var rest := FireTimes(o.button, edges[1..]);
      if o.fired {
        assert d.state == 1 && e.at - d.lastTime >= d.debounceUs;
        FiresAfter(o.button, edges[1..], e.at);
        assert FireTimes(d, edges) == [e.at] + rest;
        assert forall i :: 0 < i < |[e.at] + rest| ==> ([e.at] + rest)[i] == rest[i - 1];
      } else {
        FiresAfter(o.button, edges[1..], t);
        assert FireTimes(d, edges) == rest;
      }
    }
  }

  /** Two successive press callbacks are at least two debounce windows
      apart: a release has to be accepted between them, one window after
      the first press and one window before the second. */
  lemma {:induction false} FiresSpaced(d: Debouncer, edges: seq<Edge>)
    ensures Spaced(FireTimes(d, edges), 2 * d.debounceUs)
    decreases |edges|
  {
    if |edges| > 0 {
      var e := edges[0];
      var o := Handler(d, e.at, e.level);
      if o.fired {
        var rest := FireTimes(o.button, edges[1..]);
        FiresAfter(o.button, edges[1..], e.at);
        assert FireTimes(d, edges) == [e.at] + rest;
        assert forall i :: 0 < i < |[e.at] + rest| ==> ([e.at] + rest)[i] == rest[i - 1];
      } else {
        FiresSpaced(o.button, edges[1..]);
        assert FireTimes(d, edges) == FireTimes(o.button, edges[1..]);
      }
    }
  }

  /** A bouncing press: the contact chatters 0.5 ms after pressing and the
      chatter is swallowed; the release and the next press, 10 ms apart,
      are both seen, so two presses are reported. */
  lemma BouncingPresses()
    ensures var d := New(0, 1);
      FireTimes(d, [Edge(10000, 0), Edge(10500, 1), Edge(11000, 0), Edge(20000, 1), Edge(30000, 0)])
        == [10000, 30000]
  {
    var d := New(0, 1);
    var es := [Edge(10000, 0), Edge(10500, 1), Edge(11000, 0), Edge(20000, 1), Edge(30000, 0)];
    assert es[1..] == [Edge(10500, 1), Edge(11000, 0), Edge(20000, 1), Edge(30000, 0)];
    assert es[1..][1..] == [Edge(11000, 0), Edge(20000, 1), Edge(30000, 0)];
    assert es[1..][1..][1..] == [Edge(20000, 1), Edge(30000, 0)];
    assert es[1..][1..][1..][1..] == [Edge(30000, 0)];
  }

  /** Within the first window after construction nothing is reported. */
  lemma QuietAfterConstruction(now: int, level: Level, edges: seq<Edge>)
    requires forall i :: 0 <= i < |edges| ==> now <= edges[i].at < now + DefaultDebounceUs
    ensures FireTimes(New(now, level), edges) == []
    ensures Feed(New(now, level), edges) == New(now, level)
  {
    QuietWindow(New(now, level), edges);
  }

  lemma {:induction false} QuietWindow(d: Debouncer, edges: seq<Edge>)
    requires forall i :: 0 <= i < |edges| ==> edges[i].at - d.lastTime < d.debounceUs
    ensures FireTimes(d, edges) == [] && Feed(d, edges) == d
    decreases |edges|
  {
    if |edges| > 0 {
      assert edges[0].at - d.lastTime < d.debounceUs;
      assert forall i :: 0 <= i < |edges[1..]| ==> edges[1..][i] == edges[i + 1];
      QuietWindow(d, edges[1..]);
    }
  }
}
