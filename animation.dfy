/**
 * The fade-in rule of glow_decoration_t::update_animation: a decoration stays invisible for
 * the first second of its life, then its opacity ramps linearly to 1 over half a second.
 * Times are seconds, modelled as reals.
 */
module Animation {

  /** Seconds a new decoration stays fully transparent. */
  const FadeDelay: real := 1.0
  /** Seconds the linear ramp from 0 to 1 takes after the delay. */
  const FadeDuration: real := 0.5

  /** The opacity of a decoration of the given age (seconds since its creation). */
  function FadeOpacity(age: real): (o: real)
    ensures 0.0 <= o <= 1.0
    ensures age < FadeDelay ==> o == 0.0
    ensures age >= FadeDelay + FadeDuration ==> o == 1.0
    ensures FadeDelay <= age <= FadeDelay + FadeDuration ==> o * FadeDuration == age - FadeDelay
  {
    if age < FadeDelay then 0.0
    else
      var progress := (age - FadeDelay) / FadeDuration;
      if 1.0 < progress then 1.0 else progress
  }

  /** Opacity never decreases as a decoration ages. */
  lemma FadeMonotone(age1: real, age2: real)
    requires age1 <= age2
    ensures FadeOpacity(age1) <= FadeOpacity(age2)
  {
  }

  /**
   * For a fixed creation time, opacity is non-decreasing in the elapsed clock: a later tick
   * never shows a decoration fainter than an earlier one.
   */
  lemma FadeMonotoneInElapsed(creation: real, elapsed1: real, elapsed2: real)
    requires elapsed1 <= elapsed2
    ensures FadeOpacity(elapsed1 - creation) <= FadeOpacity(elapsed2 - creation)
  {
    FadeMonotone(elapsed1 - creation, elapsed2 - creation);
  }

  /** Samples of a decoration created at time 0: invisible at 0.5 s, half at 1.25 s, full from 1.5 s. */
  lemma FadeSamples()
    ensures FadeOpacity(0.0) == 0.0 && FadeOpacity(0.5) == 0.0
    ensures FadeOpacity(1.25) == 0.5
    ensures FadeOpacity(1.5) == 1.0 && FadeOpacity(3.0) == 1.0
  {
  }
}
