/**
  The volume button and icon. The audio level is a fraction in [0, 1]; the
  slider holds the same level as a percentage. The button mutes a sounding
  player and otherwise sets full volume (it does not restore the level that
  was muted).
 */
module Volume {

  datatype VolumeIcon = Muted | Low | High

  /** The audio level and the slider position, set together by the button. */
  datatype Setting = Setting(level: real, slider: int)

  /** The level the slider sets: `slider / 100`. */
  function SliderLevel(slider: int): (level: real)
    requires 0 <= slider <= 100
    ensures 0.0 <= level <= 1.0
    ensures level == 0.0 <==> slider == 0
  {
    slider as real / 100.0
  }

  /** `updateVolumeIcon`. */
  function Icon(level: real): VolumeIcon
  {
    if level == 0.0 then Muted else if level < 0.5 then Low else High
  }

  /** The volume button. */
  function ToggleMute(level: real): (r: Setting)
    ensures 0 <= r.slider <= 100 && SliderLevel(r.slider) == r.level
    ensures r.level == 0.0 <==> level > 0.0
    ensures level <= 0.0 ==> r == Setting(1.0, 100)
  {
    if level > 0.0 then Setting(0.0, 0) else Setting(1.0, 100)
  }

  /** After the button the icon shows muted exactly when it was sounding, and full volume otherwise. */
  lemma ToggleMuteIcon(level: real)
    ensures Icon(ToggleMute(level).level) == if level > 0.0 then Muted else High
  {
  }

  /** Pressing the button twice on a sounding player ends at full volume, not at the earlier level. */
  lemma ToggleTwiceGoesToFull(level: real)
    requires level > 0.0
    ensures ToggleMute(ToggleMute(level).level) == Setting(1.0, 100)
  {
  }

  /** The slider's icon: muted only at 0, low below 50, high from 50 up. */
  lemma SliderIcon(slider: int)
    requires 0 <= slider <= 100
    ensures Icon(SliderLevel(slider)) == if slider == 0 then Muted else if slider < 50 then Low else High
  {
  }
}
