/** The vocabulary of the front panel: the three screens the MODE button
    cycles through, their editable fields, and the four buttons with the
    bit masks the hint bar uses to find the last one pressed. */
module Controls {
  import opened Util

  datatype Mode = TimeMode | AlarmMode | RadioMode

  /** The MODE-button ring TIME -> ALARM -> RADIO -> TIME. */
  function Next(m: Mode): (n: Mode)
    ensures n != m
  {
    match m
    case TimeMode => AlarmMode
    case AlarmMode => RadioMode
    case RadioMode => TimeMode
  }

  /** Three presses go all the way round the ring. */
  lemma NextCycles(m: Mode)
    ensures Next(Next(m)) != m
    ensures Next(Next(Next(m))) == m
  {
  }

  /** Editable fields per screen: hour, minute and format (TIME); hour,
      minute and on/off (ALARM); frequency and volume (RADIO). */
  function FieldCount(m: Mode): (n: nat)
    ensures n == 2 || n == 3
    ensures n == 2 <==> m == RadioMode
  {
    match m
    case TimeMode => 3
    case AlarmMode => 3
    case RadioMode => 2
  }

  function ModeName(m: Mode): string {
    match m
    case TimeMode => "TIME"
    case AlarmMode => "ALARM"
    case RadioMode => "RADIO"
  }

  /** The whitelist of mode names: exactly the three names, spelled in
      capitals. */
  function ModeFromName(name: string): (r: Option<Mode>)
    ensures r.Some? ==> ModeName(r.value) == name
  {
    if name == "TIME" then Some(TimeMode)
    else if name == "ALARM" then Some(AlarmMode)
    else if name == "RADIO" then Some(RadioMode)
    else None
  }

  lemma ModeNameRoundTrip(m: Mode)
    ensures ModeFromName(ModeName(m)) == Some(m)
  {
  }

  datatype Button = UpButton | DownButton | ModeButton | SetButton

  /** The bit mask of each button (`MENU_UP` ... `MENU_SET`). */
  function Mask(b: Button): (k: int)
    ensures k in {1, 2, 4, 8}
  {
    match b
    case UpButton => 8
    case DownButton => 4
    case ModeButton => 2
    case SetButton => 1
  }

  /** The masks of the four hint-bar slots, left to right. */
  const SlotMasks: seq<int> := [8, 4, 2, 1]

  /** Masks are distinct, so a mask names one button. */
  lemma MaskInjective(a: Button, b: Button)
    ensures Mask(a) == Mask(b) <==> a == b
  {
  }
}
