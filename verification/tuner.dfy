/** The FM receiver as far as the controller touches it: the volume
    register, the mute flag, the received signal strength, and the seek
    commands it has been sent. Where a seek lands is the receiver's
    business, so the model only records the commands in order. */
module Tuner {
  import opened Util

  /** The loudest volume the controller will set (the driver itself takes
      four bits, which would wrap). */
  const VolumeMax: int := 4

  datatype SeekDir = SeekUp | SeekDown

  datatype Radio = Radio(volume: int, muted: bool, rssi: int, seeks: seq<SeekDir>)

  /** The start-up configuration: volume 0, muted. */
  function PowerOn(r: Radio): (p: Radio)
    ensures p.volume == 0 && p.muted
    ensures p.rssi == r.rssi && p.seeks == r.seeks
  {
    r.(volume := 0, muted := true)
  }

  function SetMute(r: Radio, on: bool): (p: Radio)
    ensures p.muted == on
    ensures p.volume == r.volume && p.rssi == r.rssi && p.seeks == r.seeks
  {
    r.(muted := on)
  }

  /** One volume step of `delta`, kept inside `[0, VolumeMax]`. */
  function StepVolume(r: Radio, delta: int): (p: Radio)
    ensures 0 <= p.volume <= VolumeMax
    ensures 0 <= r.volume + delta <= VolumeMax ==> p.volume == r.volume + delta
    ensures r.volume + delta < 0 ==> p.volume == 0
    ensures VolumeMax < r.volume + delta ==> p.volume == VolumeMax
    ensures p.muted == r.muted && p.rssi == r.rssi && p.seeks == r.seeks
  {
    r.(volume := Clamp(0, VolumeMax, r.volume + delta))
  }

  /** Sends one seek command; volume and mute are untouched. */
  function Seek(r: Radio, dir: SeekDir): (p: Radio)
    ensures p.seeks == r.seeks + [dir]
    ensures p.volume == r.volume && p.muted == r.muted && p.rssi == r.rssi
  {
    r.(seeks := r.seeks + [dir])
  }

  /** `n` volume steps of `delta` in a row. */
  function StepVolumeTimes(r: Radio, delta: int, n: nat): Radio
    decreases n
  {
    if n == 0 then r else StepVolume(StepVolumeTimes(r, delta, n - 1), delta)
  }

  /** Repeated single steps saturate: from an in-range volume, `n` steps up
      reach `min(VolumeMax, v + n)` and `n` steps down reach `max(0, v - n)`. */
  lemma {:induction false} StepVolumeSaturates(r: Radio, delta: int, n: nat)
    requires 0 <= r.volume <= VolumeMax
    requires delta == 1 || delta == -1
    ensures StepVolumeTimes(r, delta, n).volume == Clamp(0, VolumeMax, r.volume + n * delta)
    decreases n
  {
    if n > 0 {
      StepVolumeSaturates(r, delta, n - 1);
      ClampStep(r.volume, n, delta);
    }
  }

  /** One more unit step after `n - 1` clamped ones is `n` clamped steps. */
  lemma ClampStep(v: int, n: nat, delta: int)
    requires 0 <= v <= VolumeMax && n > 0 && (delta == 1 || delta == -1)
    ensures Clamp(0, VolumeMax, Clamp(0, VolumeMax, v + (n - 1) * delta) + delta) == Clamp(0, VolumeMax, v + n * delta)
  {
    assert v + n * delta == v + (n - 1) * delta + delta;
  }

  /** A step up followed by a step down is the identity below the top. */
  lemma StepVolumeUpDown(r: Radio)
    requires 0 <= r.volume < VolumeMax
    ensures StepVolume(StepVolume(r, 1), -1) == r
  {
  }
}
