/**
 * The process-wide style of the glow (glow_config_t) and the colour arithmetic render()
 * applies to it. Float components are modelled as reals.
 */
module Config {

  /** An RGBA colour (glm::vec4). */
  datatype Color = Color(r: real, g: real, b: real, a: real)

  datatype GlowConfig = GlowConfig(
    activeColor: Color,
    inactiveColor: Color,
    gradientColor2: Color,
    glowRadius: real,
    glowIntensity: real,
    borderWidth: real,
    animationSpeed: real,
    enableGradient: bool,
    gradientAngle: real,
    cornerRadius: real)

  /** The value of the global configuration before the first reload. */
  function DefaultConfig(): (c: GlowConfig)
    ensures c.activeColor == Color(1.0, 0.5, 0.0, 1.0)
    ensures c.inactiveColor == Color(0.3, 0.3, 0.3, 1.0)
    ensures c.gradientColor2 == Color(0.0, 0.5, 1.0, 1.0)
    ensures c.glowRadius == 20.0 && c.glowIntensity == 1.0 && c.borderWidth == 2.0
    ensures c.animationSpeed == 1.0 && !c.enableGradient
    ensures c.gradientAngle == 45.0 && c.cornerRadius == 10.0
  {
    GlowConfig(
      activeColor := Color(1.0, 0.5, 0.0, 1.0),
      inactiveColor := Color(0.3, 0.3, 0.3, 1.0),
      gradientColor2 := Color(0.0, 0.5, 1.0, 1.0),
      glowRadius := 20.0,
      glowIntensity := 1.0,
      borderWidth := 2.0,
      animationSpeed := 1.0,
      enableGradient := false,
      gradientAngle := 45.0,
      cornerRadius := 10.0)
  }

  /** A colour whose alpha is multiplied by a fade factor (color.a *= opacity). */
  function FadeAlpha(c: Color, opacity: real): (f: Color)
    ensures f.r == c.r && f.g == c.g && f.b == c.b && f.a == c.a * opacity
    ensures opacity == 1.0 ==> f == c
    ensures opacity == 0.0 ==> f.a == 0.0
    ensures 0.0 <= opacity <= 1.0 && 0.0 <= c.a ==> 0.0 <= f.a <= c.a
  {
    assert 0.0 <= opacity <= 1.0 && 0.0 <= c.a ==> c.a * opacity <= c.a * 1.0;
    c.(a := c.a * opacity)
  }
}
