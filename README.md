# wf-glow: a Dafny model of the glow decoration's bookkeeping

This project models the Wayfire plugin that draws an animated glow around toplevel views
(`wf-rainbow-glow/glow-decoration.cpp` and `.hpp`). It covers everything around the GPU
work:

- the registry from view to decoration node, and the focused view;
- each node's state: active flag, animation time, fade opacity and creation time. The model
  records every damage notification a node emits in a ghost log;
- the animation tick with its fade-in rule;
- the integer geometry: the damage box, the clipping of a redraw against the damage region,
  the draw quad and its normalized-device-coordinate (NDC) mapping;
- the shader program's lifecycle: uncompiled, then compiled, then destroyed.

Modules, one per component:

- `Wrappers` (`wrappers.dfy`): `Option`, for nullable views.
- `Geometry` (`geometry.dfy`): rectangles, regions as sets of integer pixels, C++ truncating
  casts, `get_bounding_box`'s expansion, the draw quad and the NDC map with its inverse.
- `Config` (`config.dfy`): `glow_config_t`, its defaults, and the alpha fade of colours.
- `Animation` (`animation.dfy`): the fade-in opacity as a function of age.
- `Shader` (`shader.dfy`): `glow_program_t` as a class, specified by the pure state steps
  `CompileStep` and `DestroyStep`. The GL driver's answers are an input value: the names it
  hands out, whether each of the two compiles succeeded, whether the link succeeded, and the
  uniform locations. A ghost set `live` holds the GL names created and not yet deleted.
- `Decoration` (`decoration.dfy`): the host's views and the `glow_decoration_node_t` class.
- `RenderInstance` (`render.dfy`): `schedule_instructions` and `render`. A draw is the value
  `DrawCall`, holding what would be uploaded to the GPU.
- `Plugin` (`plugin.dfy`): the `glow_decoration_t` class. Its invariant `Valid()` says three
  things. Each node sits under its own view. Each opacity is in [0, 1]. A node is active
  exactly when its view is the focused one.

The clock is an input. `now` and `elapsed` are seconds since the plugin's start time. The
compositor's views are a map from view identity to `ViewInfo`: mapped or not, bounding box,
toplevel or not, and whether it should be decorated. An identity missing from the map is a
view that is gone. Float arithmetic is modelled over the reals. Every `static_cast<int>` is
written out as truncation toward zero (`Geometry.Trunc`).

Points where the code behaves differently from what one might expect; the model follows the code:

- A failed shader compile is not sticky. `compiled` stays false, so the next `render` of a
  mapped view compiles again. Each retry creates new GL objects and never deletes the
  previous ones (`Shader.RetryAbandonsObjects`).
- A zero-size render target is not guarded. The draw is still issued, with a quad the model
  marks as `None` (undefined).
- Compilation is attempted before the opacity test. A transparent decoration still triggers
  a compile.
- Two different expansions are used. The damage box grows by `int(glow_radius +
  border_width)`. The draw quad grows by `glow_radius`, with each coordinate truncated. Neither
  always contains the other (`Geometry.DrawQuadEscapesDamageBox`).
- `fini` destroys the program only when it is compiled. Objects of a failed attempt stay
  alive.
- `opacity` and `creation_time` are used by the code but not declared in the header shown.
  The model's node constructor sets both to 0. `add_decoration` then sets the creation time.

## Model

| member | source | states |
|---|---|---|
| Geometry.Trunc | wf-rainbow-glow/glow-decoration.cpp:289 | `static_cast<int>` truncates toward zero (`TowardZero`): the result lies within one unit of the value, on the side of 0 |
| Geometry.TowardZeroUnique | wf-rainbow-glow/glow-decoration.cpp:289 | rounding toward zero has exactly one answer, so `TowardZero` fixes each truncated coordinate |
| Geometry.RegionEmptyIff | wf-rainbow-glow/glow-decoration.cpp:122-125 | the region of a rectangle is empty exactly when its width or height is not positive |
| Geometry.IntersectRegion | wf-rainbow-glow/glow-decoration.cpp:122-123 | intersecting two rectangle regions gives the region of their overlap rectangle |
| Geometry.ClipRectDamage | wf-rainbow-glow/glow-decoration.cpp:121-125 | clipping a rectangular damage to the node's box keeps exactly their overlap rectangle, and no instruction is scheduled exactly when that rectangle has no positive width or height |
| Geometry.ApartRegionsDisjoint | wf-rainbow-glow/glow-decoration.cpp:122-125 | rectangles that lie apart along x or y have disjoint regions |
| Geometry.ExpandedBox | wf-rainbow-glow/glow-decoration.cpp:283-297 | `{0,0,0,0}` for a null or unmapped view; otherwise the view box with a margin of exactly `int(glow_radius + border_width)` on each of the four sides |
| Geometry.GoneViewBoxEmpty | wf-rainbow-glow/glow-decoration.cpp:284-286 | the box of a gone view covers no pixel, so it meets no damage |
| Geometry.ExpandedBoxCoversView | wf-rainbow-glow/glow-decoration.cpp:288-296 | with a non-negative radius plus border, the damage box covers every pixel of the view |
| Geometry.DrawQuad | wf-rainbow-glow/glow-decoration.cpp:151-160 | for every radius, each of x, y, width and height is the real value (x - radius, y - radius, width + 2·radius, height + 2·radius) rounded toward zero; with a whole glow radius k, the quad is the view box grown by k on every side |
| Geometry.DrawQuadInsideDamageBox | wf-rainbow-glow/glow-decoration.cpp:155-160 | with a whole, non-negative radius and a non-negative border, every pixel of the draw quad lies in the damage box |
| Geometry.DrawQuadEscapesDamageBox | wf-rainbow-glow/glow-decoration.cpp:155-160 | for the view (100,100,50,50), radius 20.5 and no border, the quad has pixel (79,79) outside the damage box |
| Geometry.NdcRoundTrip | wf-rainbow-glow/glow-decoration.cpp:175-179 | `2(v - origin)/size - 1` is inverted by `FromNdc`; a device coordinate maps to v exactly when `FromNdc` returns v |
| Geometry.NdcInUnitRange | wf-rainbow-glow/glow-decoration.cpp:175-179 | a coordinate inside a target axis of positive size maps into [-1, 1] |
| Geometry.QuadToNdc | wf-rainbow-glow/glow-decoration.cpp:162-187 | defined exactly when the target's width and height are non-zero; then each edge maps back to the quad's edge in output coordinates |
| Geometry.QuadInsideTargetInUnitSquare | wf-rainbow-glow/glow-decoration.cpp:162-187 | a quad inside the target has all four NDC edges in [-1, 1] |
| Config.DefaultConfig | wf-rainbow-glow/glow-decoration.hpp:46-57 | the default colours, and: radius 20, intensity 1, border 2, speed 1, gradient off, angle 45, corner radius 10 |
| Config.FadeAlpha | wf-rainbow-glow/glow-decoration.cpp:204-210 | the fade keeps the RGB of the colour and its alpha becomes alpha × opacity; opacity 1 leaves the colour as it is, opacity 0 makes it transparent, and for an opacity in [0,1] the alpha never grows |
| Animation.FadeOpacity | wf-rainbow-glow/glow-decoration.cpp:346-359 | opacity is in [0,1]; 0 before an age of 1 s; 1 from 1.5 s; linear between those two ages |
| Animation.FadeMonotone | wf-rainbow-glow/glow-decoration.cpp:353-359 | opacity is non-decreasing in age |
| Animation.FadeMonotoneInElapsed | wf-rainbow-glow/glow-decoration.cpp:343-359 | for a fixed creation time, opacity is non-decreasing in the elapsed clock |
| Animation.FadeSamples | wf-rainbow-glow/glow-decoration.cpp:346-359 | ages 0 and 0.5 s give 0, age 1.25 s gives 0.5, ages 1.5 s and 3 s give 1 |
| Shader.CompileStep | wf-rainbow-glow/glow-decoration.cpp:54-84 | a compiled program is left unchanged. Otherwise the new objects replace the old names, which stay live. The program ends compiled exactly when both compiles and the link succeed, and only then are the uniform locations replaced |
| Shader.DestroyStep | wf-rainbow-glow/glow-decoration.cpp:90-96 | all names are zeroed, `compiled` is cleared, exactly the non-zero names are deleted; uniform locations are kept |
| Shader.DestroyTwiceHarmless | wf-rainbow-glow/glow-decoration.cpp:90-96 | a second destroy changes nothing |
| Shader.DestroyThenCompile | wf-rainbow-glow/glow-decoration.cpp:54-96 | after destroy, a compile whose stages all succeed leaves the program compiled with the new locations |
| Shader.StepsKeepHeldNamesLive | wf-rainbow-glow/glow-decoration.cpp:54-59 | the initial program holds no names, and a compile or a destroy never leaves the program holding a deleted name |
| Shader.FreshNamesDiffer | wf-rainbow-glow/glow-decoration.cpp:57-59 | names the driver hands out that are not live differ from every name a reachable program holds |
| Shader.RetryAbandonsObjects | wf-rainbow-glow/glow-decoration.cpp:57-61 | after a failed retry, the names of the previous attempt are still live but no longer held by the program |
| Shader.GlowProgram.constructor | wf-rainbow-glow/glow-decoration.hpp:20-37 | a new program is uncompiled, has every handle 0 and every uniform location -1 |
| Shader.GlowProgram.CompileShaders | wf-rainbow-glow/glow-decoration.cpp:54-84 | the new state is `CompileStep` of the old state; the result is the new `compiled` flag |
| Shader.GlowProgram.Destroy | wf-rainbow-glow/glow-decoration.cpp:90-96 | the new state is `DestroyStep` of the old state |
| Decoration.GlowNode.constructor | wf-rainbow-glow/glow-decoration.hpp:66-70 | a new node is inactive, has animation time 0 and has emitted no damage |
| Decoration.GlowNode.Emit | wf-rainbow-glow/glow-decoration.cpp:265-267 | one damage notification is appended to the log; no field changes |
| Decoration.GlowNode.SetActive | wf-rainbow-glow/glow-decoration.cpp:261-269 | the flag is set; the node's box is damaged once exactly when the flag changed; no other field changes |
| Decoration.GlowNode.SetAnimationTime | wf-rainbow-glow/glow-decoration.cpp:271-277 | the time is stored and the node's box is damaged once, always |
| RenderInstance.ScheduleInstructions | wf-rainbow-glow/glow-decoration.cpp:116-132 | exactly one instruction is appended when the node's box meets the damage, and none otherwise. Its damage is that intersection, so it is non-empty and lies inside both the damage and the box |
| RenderInstance.ScheduleTwoDecorations | wf-rainbow-glow/glow-decoration.cpp:116-132 | two decorations with boxes apart, damage equal to the first box: exactly one instruction, for the first decoration, clipped to its box |
| RenderInstance.DrawFor | wf-rainbow-glow/glow-decoration.cpp:151-218 | colour is the active colour iff the node is active, with alpha times opacity. The gradient colour keeps its configured RGB and its alpha is also times opacity. The quad maps back to the radius-expanded box. The border box is the unexpanded view box relative to the target. The resolution is the target's width and height, and the glow radius, intensity, border width, gradient angle and corner radius are the configured ones |
| RenderInstance.Render | wf-rainbow-glow/glow-decoration.cpp:134-149 | no draw and no compile for an unmapped view. Otherwise the program takes one `CompileStep`. The draw happens exactly when the program is then compiled and the opacity is positive, and the draw is `DrawFor` of the node |
| Plugin.Ticked | wf-rainbow-glow/glow-decoration.cpp:349-361 | a tick keeps a node's active flag and creation time and leaves its opacity in [0,1] |
| Plugin.GlowDecoration.AtMostOneActive | wf-rainbow-glow/glow-decoration.cpp:336-340 | under the invariant, only the focused view's node can be active, so at most one node is |
| Plugin.GlowDecoration.constructor | wf-rainbow-glow/glow-decoration.hpp:108-110 | no decorations, no focused view, no timer, default configuration |
| Plugin.GlowDecoration.AddDecoration | wf-rainbow-glow/glow-decoration.cpp:363-387 | a no-op for a null view, an already decorated view, or a toplevel that should not be decorated. Otherwise exactly one fresh node is added, active iff its view is focused, created at `now`, and other entries are kept. The invariant is preserved |
| Plugin.GlowDecoration.RemoveDecoration | wf-rainbow-glow/glow-decoration.cpp:388-398 | the view's entry is erased if present; focus equal to the view is cleared; the invariant is preserved |
| Plugin.GlowDecoration.UpdateFocus | wf-rainbow-glow/glow-decoration.cpp:336-340 | each node becomes active iff its view is focused, damaging only the nodes whose flag changed |
| Plugin.GlowDecoration.OnFocusRequest | wf-rainbow-glow/glow-decoration.cpp:428-431 | after a focus request for a view, the active nodes are exactly that view's node if it has one, and none otherwise. Every node keeps its other fields and damages its box once exactly when its active flag changed. Registry, style and timer are unchanged |
| Plugin.GlowDecoration.OnViewMapped | wf-rainbow-glow/glow-decoration.cpp:416-420 | a non-toplevel view, an already decorated view, or a toplevel that draws its own decorations leaves the registry as it was. Otherwise exactly one fresh node is added for the view, active iff the view is focused, created at `now`, transparent at time 0, and it damages its box only when it starts active. Focus, style and timer are unchanged |
| Plugin.GlowDecoration.OnViewUnmapped | wf-rainbow-glow/glow-decoration.cpp:423-425 | the view's entry is removed and every other entry is kept; a focus on that view is cleared, any other focus is kept; style and timer are unchanged |
| Plugin.GlowDecoration.UpdateConfig | wf-rainbow-glow/glow-decoration.cpp:312-334 | the new style is installed; every registered node emits exactly one damage, of its box under the new style; node fields are unchanged |
| Plugin.GlowDecoration.UpdateAnimation | wf-rainbow-glow/glow-decoration.cpp:342-362 | each node of a mapped view gets time `elapsed * speed`, the fade opacity of its age and one damage. Nodes of unmapped views are unchanged. The invariant is preserved |
| Plugin.GlowDecoration.TickNode | wf-rainbow-glow/glow-decoration.cpp:350-360 | one loop step: a node of a mapped view gets the scaled time, one damage and the fade opacity of its age; any other node is untouched |
| Plugin.GlowDecoration.StartAnimationTimer | wf-rainbow-glow/glow-decoration.cpp:440-447 | the animation timer is armed |
| Plugin.GlowDecoration.OnAnimationTimer | wf-rainbow-glow/glow-decoration.cpp:441-446 | a tick runs only while the timer is armed and leaves it armed. Each node of a mapped view gets the scaled animation time and the fade opacity of its age, and damages its box once. Each node of an unmapped or gone view is left as it was (`AfterTick`) |
| Plugin.GlowDecoration.Fini | wf-rainbow-glow/glow-decoration.cpp:452-468 | the timer is disarmed and the map emptied. The program is destroyed exactly when it was compiled, and left as it was otherwise |

## Left out

- All OpenGL ES calls: shader sources, the status and info-log queries, `glUseProgram`
  (`use`), uniform uploads, vertex array and buffer creation, blending and the draw. They are
  GPU calls. Their outcomes are inputs (`Shader.CompileOutcome`). The values a draw would
  upload are `RenderInstance.DrawCall`.
- The GLSL shaders in `wf-rainbow-glow/shaders.hpp`: the rounded-box distance field, the
  exponential falloff, the noise and the gradient are floating-point numerics run on the GPU.
- IEEE float rounding in the NDC, colour and fade arithmetic, and the double-to-float
  narrowing in `update_config`. These are modelled over the reals. A `static_cast<int>` of a
  value outside the `int` range is undefined in C++ and is not modelled.
- The Wayland event-loop timer and its 16 ms re-arm are reduced to a flag. `steady_clock`
  sampling is replaced by the `now` and `elapsed` parameters.
- `init`'s option callbacks, its first `update_config` call and its loop over existing views.
  These are host wiring. The three signal handlers are modelled.
- Scene-graph operations (`add_front`, `remove_child`), `gen_render_instances`, and the
  forwarding of node damage to the render instance's `push_damage`. A node's emitted damage is
  its ghost log.
- `region_t` is reduced to sets of integer pixels. Only rectangle regions are built.
- `stringify`, logging, the plugin declaration macro, the unused `prev_bbox` and
  `on_geometry_changed` fields, and the commented-out scissor loop. The instruction's damage is
  unused by `render`, so `Render` takes only the target.
- `std::map` iterates in key order; the model's loops visit views in an arbitrary order. Each
  node has its own damage log, so the order does not change any node's final state.
- A render instruction names its instance by the node's view identity.
- Plugin.GlowDecoration.Fini: states the final state, not the order of the three steps; that
  order (timer, then decorations, then program) is visible only in its body.
- `wf::geometry_t` holds 32-bit `int`s. The sums `bbox.x - expand` and `bbox.width + 2 * expand`
  and the target-relative differences are computed over unbounded integers. Their overflow is
  not modelled.
- `g_config` and `g_glow_program` are globals shared by the plugin instances of all outputs.
  In the model each `GlowDecoration` holds its own `config` field. A program is passed in and
  can be shared, but one output's `update_config` is not seen by another output's
  decoration.
