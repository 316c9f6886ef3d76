/** The serial console of the radio bench test: one character per
    command. `=` first takes the radio off mute and otherwise turns the
    volume up to at most 15; `-` turns the volume down to 0 and then mutes.
    Seeking and the help text do not touch volume or mute. */
module RadioConsole {

  /** The loudest volume the console sets (the driver's four-bit register). */
  const ConsoleVolumeMax: int := 15

  datatype Console = Console(volume: int, muted: bool)

  /** The start-up settings: volume 1, not muted. */
  const Start: Console := Console(1, false)

  /** One command character. */
  function Step(c: Console, command: char): (r: Console)
    ensures command == '=' && c.muted ==> r == Console(c.volume, false)
    ensures command == '=' && !c.muted ==>
      r.muted == c.muted && r.volume == (if c.volume < ConsoleVolumeMax then c.volume + 1 else c.volume)
    ensures command == '-' && c.volume > 0 ==> r == Console(c.volume - 1, c.muted)
    ensures command == '-' && c.volume <= 0 ==> r == Console(c.volume, true)
    ensures command != '=' && command != '-' ==> r == c
  {
    if command == '=' then
      if c.muted then c.(muted := false)
      else if c.volume < ConsoleVolumeMax then c.(volume := c.volume + 1)
      else c
    else if command == '-' then
      if c.volume > 0 then c.(volume := c.volume - 1)
      else if !c.muted then c.(muted := true)
      else c
    else c
  }

  function Run(c: Console, commands: seq<char>): Console
    decreases |commands|
  {
    if |commands| == 0 then c else Run(Step(c, commands[0]), commands[1..])
  }

  predicate InRange(c: Console) {
    0 <= c.volume <= ConsoleVolumeMax
  }

  /** The volume stays in `[0, 15]` for every command sequence from an
      in-range start, the start-up settings included. */
  lemma {:induction false} RunInRange(c: Console, commands: seq<char>)
    requires InRange(c)
    ensures InRange(Run(c, commands))
    decreases |commands|
  {
    if |commands| > 0 {
      RunInRange(Step(c, commands[0]), commands[1..]);
    }
  }

  lemma StartInRange(commands: seq<char>)
    ensures InRange(Run(Start, commands))
  {
    RunInRange(Start, commands);
  }

  /** `n` copies of one command. */
  function Repeat(command: char, n: nat): (r: seq<char>)
    ensures |r| == n && forall i :: 0 <= i < n ==> r[i] == command
  {
    seq(n, _ => command)
  }

  /** Pressing `=` often enough from an unmuted state reaches full volume
      and stays there. */
  lemma {:induction false} UpSaturates(c: Console, n: nat)
    requires InRange(c) && !c.muted
    ensures Run(c, Repeat('=', n)) == Console(if c.volume + n < ConsoleVolumeMax then c.volume + n else ConsoleVolumeMax, false)
    decreases n
  {
    if n > 0 {
      var rest := Repeat('=', n)[1..];
      assert rest == Repeat('=', n - 1);
      UpSaturates(Step(c, '='), n - 1);
    }
  }

  /** Pressing `-` once per volume step and once more turns the radio down
      to 0 and mutes it; the ladder then stays put. */
  lemma {:induction false} DownMutes(c: Console, n: nat)
    requires InRange(c)
    ensures Run(c, Repeat('-', n)) ==
      if n <= c.volume then Console(c.volume - n, c.muted) else Console(0, true)
    decreases n
  {
    if n > 0 {
      var rest := Repeat('-', n)[1..];
      assert rest == Repeat('-', n - 1);
      DownMutes(Step(c, '-'), n - 1);
    }
  }

  /** From start-up, 14 presses of `=` reach full volume and `-` pressed
      16 times reaches silence. */
  lemma StartLadder()
    ensures Run(Start, Repeat('=', 14)) == Console(ConsoleVolumeMax, false)
    ensures Run(Run(Start, Repeat('=', 14)), Repeat('-', 16)) == Console(0, true)
  {
    UpSaturates(Start, 14);
    DownMutes(Console(ConsoleVolumeMax, false), 16);
  }

  /** Up undoes down while the radio plays: at the bottom of the ladder
      `-` mutes and `=` unmutes, elsewhere they step the volume. When the
      radio is muted above 0 the pair does not cancel: `=` unmutes. */
  lemma DownUp(c: Console)
    requires InRange(c)
    ensures !c.muted ==> Run(c, ['-', '=']) == c
    ensures c.muted && c.volume > 0 ==> Run(c, ['-', '=']) == Console(c.volume - 1, false)
  {
    assert ['-', '='][1..] == ['='];
    assert ['='][1..] == [];
  }
}
