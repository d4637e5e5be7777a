/**
 * The render instance of a decoration (glow_render_instance_t): scheduling a draw against a
 * damage region, and the decisions and arithmetic of one draw. The GL calls of the draw are
 * outside the model; a DrawCall is the set of values the draw would upload.
 */
module RenderInstance {
  import opened Wrappers
  import opened Geometry
  import opened Config
  import opened Shader
  import opened Decoration

  /**
   * A render instruction: the instance that draws it (named by its node's view), the render
   * target's geometry, and the damage it is clipped to.
   */
  datatype Instruction = Instruction(instance: ViewId, target: Rect, damage: set<Point>)

  /**
   * schedule_instructions: appends one instruction, clipped to the part of the damage the
   * node's box covers, when that part is non-empty; leaves the list as it was otherwise.
   */
  method ScheduleInstructions(node: GlowNode, host: Host, cfg: GlowConfig,
                              instructions: seq<Instruction>, target: Rect, damage: set<Point>)
    returns (out: seq<Instruction>)
    ensures var clip := RectRegion(node.BoundingBox(host, cfg)) * damage;
      out == if clip == {} then instructions else instructions + [Instruction(node.view, target, clip)]
    ensures forall i | |instructions| <= i < |out| ::
      && out[i].damage != {}
      && out[i].damage <= damage
      && out[i].damage <= RectRegion(node.BoundingBox(host, cfg))
  {
    var bbox := node.BoundingBox(host, cfg);
    var ourRegion := RectRegion(bbox);
    ourRegion := ourRegion * damage;
    out := instructions;
    if ourRegion != {} {
      out := out + [Instruction(node.view, target, ourRegion)];
    }
  }

  /**
   * One redraw pass over two decorations whose boxes lie apart, with the damage being exactly
   * the first box: only the first decoration gets an instruction.
   */
  method ScheduleTwoDecorations(a: GlowNode, b: GlowNode, host: Host, cfg: GlowConfig, target: Rect)
    returns (out: seq<Instruction>)
    requires var boxA := a.BoundingBox(host, cfg);
      boxA.width > 0 && boxA.height > 0 && Apart(boxA, b.BoundingBox(host, cfg))
    ensures |out| == 1 && out[0].instance == a.view
    ensures out[0].damage == RectRegion(a.BoundingBox(host, cfg))
  {
    var boxA, boxB := a.BoundingBox(host, cfg), b.BoundingBox(host, cfg);
    var damage := RectRegion(boxA);
    RegionEmptyIff(boxA);
    ApartRegionsDisjoint(boxB, boxA);
    out := ScheduleInstructions(a, host, cfg, [], target, damage);
    out := ScheduleInstructions(b, host, cfg, out, target, damage);
  }

  /** The values one draw uploads (uniforms and the NDC quad). */
  datatype DrawCall = DrawCall(
    resolution: (real, real),
    borderBox: (real, real, real, real),
    glowColor: Color,
    glowColor2: Color,
    quad: Option<NdcQuad>,
    glowRadius: real,
    glowIntensity: real,
    borderWidth: real,
    time: real,
    enableGradient: int,
    gradientAngle: real,
    cornerRadius: real)

  /**
   * The draw of a mapped view's decoration. The colour is the active colour exactly when the
   * node is active, with its alpha (and the gradient colour's alpha) faded by the opacity. The
   * quad is the view box expanded by the glow radius (DrawQuad), mapped into the target's
   * device coordinates; the border box is the unexpanded view box relative to the target.
   */
  function DrawFor(viewBox: Rect, isActive: bool, opacity: real, animationTime: real,
                   cfg: GlowConfig, target: Rect): (d: DrawCall)
    ensures var base := if isActive then cfg.activeColor else cfg.inactiveColor;
      && d.glowColor.r == base.r && d.glowColor.g == base.g && d.glowColor.b == base.b
      && d.glowColor.a == base.a * opacity
    ensures var g2 := cfg.gradientColor2;
      && d.glowColor2.r == g2.r && d.glowColor2.g == g2.g && d.glowColor2.b == g2.b
      && d.glowColor2.a == g2.a * opacity
    ensures d.quad.Some? <==> target.width != 0 && target.height != 0
    ensures d.quad.Some? ==>
      var g := DrawQuad(viewBox, cfg.glowRadius);
      && FromNdc(d.quad.value.left, target.x, target.width) == g.x as real
      && FromNdc(d.quad.value.right, target.x, target.width) == (g.x + g.width) as real
      && FromNdc(d.quad.value.top, target.y, target.height) == g.y as real
      && FromNdc(d.quad.value.bottom, target.y, target.height) == (g.y + g.height) as real
    ensures d.borderBox.0 + target.x as real == viewBox.x as real
    ensures d.borderBox.1 + target.y as real == viewBox.y as real
    ensures d.borderBox.2 == viewBox.width as real && d.borderBox.3 == viewBox.height as real
    ensures d.time == animationTime && (d.enableGradient == 1 <==> cfg.enableGradient)
    ensures d.resolution == (target.width as real, target.height as real)
    ensures d.glowRadius == cfg.glowRadius && d.glowIntensity == cfg.glowIntensity
    ensures d.borderWidth == cfg.borderWidth && d.gradientAngle == cfg.gradientAngle
    ensures d.cornerRadius == cfg.cornerRadius
  {
    var color := FadeAlpha(if isActive then cfg.activeColor else cfg.inactiveColor, opacity);
    var gradColor := FadeAlpha(cfg.gradientColor2, opacity);
    DrawCall(
      resolution := (target.width as real, target.height as real),
      borderBox := ((viewBox.x - target.x) as real, (viewBox.y - target.y) as real,
                    viewBox.width as real, viewBox.height as real),
      glowColor := color,
      glowColor2 := gradColor,
      quad := QuadToNdc(DrawQuad(viewBox, cfg.glowRadius), target),
      glowRadius := cfg.glowRadius,
      glowIntensity := cfg.glowIntensity,
      borderWidth := cfg.borderWidth,
      time := animationTime,
      enableGradient := if cfg.enableGradient then 1 else 0,
      gradientAngle := cfg.gradientAngle,
      cornerRadius := cfg.cornerRadius)
  }

  /**
   * render: nothing is drawn for an unmapped or gone view (and the program is not touched);
   * otherwise an uncompiled program is compiled first, and the draw happens exactly when the
   * program is then compiled and the node's opacity is positive.
   */
  method Render(node: GlowNode, host: Host, prog: GlowProgram, cfg: GlowConfig, target: Rect,
                gl: CompileOutcome)
    returns (draw: Option<DrawCall>)
    modifies prog
    ensures ViewBox(host, node.view).None? ==> prog.State() == old(prog.State())
    ensures ViewBox(host, node.view).Some? ==> prog.State() == CompileStep(old(prog.State()), gl)
    ensures draw.Some? <==> ViewBox(host, node.view).Some? && prog.compiled && node.opacity > 0.0
    ensures draw.Some? ==>
      draw.value == DrawFor(ViewBox(host, node.view).value, node.isActive, node.opacity,
                            node.animationTime, cfg, target)
  {
    var viewBox := ViewBox(host, node.view);
    if viewBox.None? {
      return None;
    }
    if !prog.compiled {
      var ok := prog.CompileShaders(gl);
      if !ok {
        return None;
      }
    }
    if node.opacity <= 0.0 {
      return None;
    }
    draw := Some(DrawFor(viewBox.value, node.isActive, node.opacity, node.animationTime, cfg, target));
  }
}
