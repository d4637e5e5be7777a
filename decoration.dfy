/**
 * The per-view decoration node (glow_decoration_node_t) and the host views it refers to.
 * A damage notification a node emits is recorded in its ghost `damage` log, one rectangle per
 * notification.
 */
module Decoration {
  import opened Wrappers
  import opened Geometry
  import opened Config

  /** A view (wayfire_view) by identity; null views are None where the source allows them. */
  type ViewId = nat

  /** What the compositor reports about a view. */
  datatype ViewInfo = ViewInfo(mapped: bool, box: Rect, toplevel: bool, shouldBeDecorated: bool)

  /** The compositor's views; an identity absent from the map is a view that is gone. */
  type Host = map<ViewId, ViewInfo>

  /** The view's bounding box when it is mapped, None when it is unmapped or gone. */
  function ViewBox(host: Host, v: ViewId): (b: Option<Rect>)
    ensures b.Some? <==> v in host && host[v].mapped
  {
    if v in host && host[v].mapped then Some(host[v].box) else None
  }

  /** toplevel_cast(view) is non-null. */
  predicate IsToplevel(host: Host, v: ViewId) {
    v in host && host[v].toplevel
  }

  /** add_decoration skips toplevels that draw their own decorations (client-side). */
  predicate Decoratable(host: Host, v: ViewId) {
    !(IsToplevel(host, v) && !host[v].shouldBeDecorated)
  }

  /** The mutable fields of a node, as one value. */
  datatype NodeState = NodeState(isActive: bool, animationTime: real, opacity: real, creationTime: real)

  class GlowNode {
    const view: ViewId
    var isActive: bool
    var animationTime: real
    var opacity: real
    var creationTime: real
    ghost var damage: seq<Rect>

    ghost function State(): NodeState
      reads this
    {
      NodeState(isActive, animationTime, opacity, creationTime)
    }

    /** A new node is inactive at time 0; it starts transparent and has emitted nothing. */
    constructor (v: ViewId)
      ensures view == v && State() == NodeState(false, 0.0, 0.0, 0.0) && damage == []
    {
      view := v;
      isActive := false;
      animationTime := 0.0;
      opacity := 0.0;
      creationTime := 0.0;
      damage := [];
    }

    /** The node's damage box (get_bounding_box) under the given views and configuration. */
    function BoundingBox(host: Host, cfg: GlowConfig): Rect {
      ExpandedBox(ViewBox(host, view), cfg.glowRadius, cfg.borderWidth)
    }

    /** node->emit(node_damage_signal{region}). */
    ghost method Emit(box: Rect)
      modifies this
      ensures State() == old(State()) && damage == old(damage) + [box]
    {
      damage := damage + [box];
    }

    /** Changes the active flag; damages the node's box only when the flag actually changes. */
    method SetActive(active: bool, host: Host, cfg: GlowConfig)
      modifies this
      ensures State() == old(State()).(isActive := active)
      ensures damage == old(damage) + if old(isActive) != active then [BoundingBox(host, cfg)] else []
    {
      if isActive != active {
        isActive := active;
        Emit(BoundingBox(host, cfg));
      }
    }

    /** Stores the animation time and always damages the node's box. */
    method SetAnimationTime(time: real, host: Host, cfg: GlowConfig)
      modifies this
      ensures State() == old(State()).(animationTime := time)
      ensures damage == old(damage) + [BoundingBox(host, cfg)]
    {
      animationTime := time;
      Emit(BoundingBox(host, cfg));
    }
  }
}
