/**
 * The per-output plugin (glow_decoration_t): the registry from view to decoration node, the
 * focused view, the animation timer, the global configuration and the global shader program.
 * The clock is an input: `now` and `elapsed` are seconds since the plugin's start time.
 */
module Plugin {
  import opened Wrappers
  import opened Geometry
  import opened Config
  import opened Animation
  import opened Shader
  import opened Decoration

  /** A node's fields after one animation tick at clock `elapsed` with the given speed. */
  function Ticked(s: NodeState, elapsed: real, speed: real): (t: NodeState)
    ensures t.isActive == s.isActive && t.creationTime == s.creationTime
    ensures 0.0 <= t.opacity <= 1.0
  {
    s.(animationTime := elapsed * speed, opacity := FadeOpacity(elapsed - s.creationTime))
  }

  /**
   * What one animation tick at clock `elapsed` makes of a node that had fields `before` and
   * damage log `log`: a node of a mapped view is ticked and damages its box once; a node of an
   * unmapped or gone view is left as it was.
   */
  ghost predicate AfterTick(n: GlowNode, before: NodeState, log: seq<Rect>, host: Host, cfg: GlowConfig, elapsed: real)
    reads n
  {
    if ViewBox(host, n.view).Some? then
      n.State() == Ticked(before, elapsed, cfg.animationSpeed) && n.damage == log + [n.BoundingBox(host, cfg)]
    else
      n.State() == before && n.damage == log
  }

  /** A subset is no larger than its superset. */
  lemma SubsetCard<T>(a: set<T>, b: set<T>)
    requires a <= b
    ensures |a| <= |b|
  {
    assert b == a + (b - a);
  }

  class GlowDecoration {
    var decorations: map<ViewId, GlowNode>
    var focusedView: Option<ViewId>
    var timerArmed: bool
    var config: GlowConfig
    const program: GlowProgram

    /**
     * Every node is registered under its own view (so no view has two nodes and no node
     * serves two views), and every opacity lies in [0, 1].
     */
    ghost predicate Registered()
      reads this, decorations.Values
    {
      forall v | v in decorations :: decorations[v].view == v && 0.0 <= decorations[v].opacity <= 1.0
    }

    /** Registered, and a node is active exactly when its view is the focused one. */
    ghost predicate Valid()
      reads this, decorations.Values
    {
      && Registered()
      && forall v | v in decorations :: decorations[v].isActive <==> focusedView == Some(v)
    }

    /** The views whose decoration is drawn with the active colour. */
    ghost function ActiveViews(): set<ViewId>
      reads this, decorations.Values
    {
      set v | v in decorations && decorations[v].isActive
    }

    /** At most one decoration is active, and only that of the focused view. */
    lemma AtMostOneActive()
      requires Valid()
      ensures ActiveViews() <= if focusedView.Some? then {focusedView.value} else {}
      ensures |ActiveViews()| <= 1
    {
      var bound: set<ViewId> := if focusedView.Some? then {focusedView.value} else {};
      assert ActiveViews() <= bound;
      assert |bound| <= 1;
      SubsetCard(ActiveViews(), bound);
    }

    /** The plugin starts with no decorations, no focused view, no timer, the default style. */
    constructor (prog: GlowProgram)
      ensures decorations == map[] && focusedView == None && !timerArmed
      ensures config == DefaultConfig() && program == prog
      ensures Valid()
    {
      decorations := map[];
      focusedView := None;
      timerArmed := false;
      config := DefaultConfig();
      program := prog;
    }

    /**
     * add_decoration: nothing happens for a null view, a view that already has a node, or a
     * toplevel that draws its own decorations. Otherwise one new node is registered for the
     * view, active exactly when the view is focused, created at `now`.
     */
    method AddDecoration(view: Option<ViewId>, host: Host, now: real)
      requires Valid()
      modifies this
      ensures Valid()
      ensures focusedView == old(focusedView) && config == old(config) && timerArmed == old(timerArmed)
      ensures view.None? || view.value in old(decorations) || !Decoratable(host, view.value) ==>
        decorations == old(decorations)
      ensures view.Some? && view.value !in old(decorations) && Decoratable(host, view.value) ==>
        var v := view.value;
        && decorations.Keys == old(decorations).Keys + {v}
        && (forall w | w in old(decorations) :: decorations[w] == old(decorations)[w])
        && fresh(decorations[v])
        && decorations[v].State() == NodeState(focusedView == Some(v), 0.0, 0.0, now)
        && decorations[v].damage == if focusedView == Some(v) then [decorations[v].BoundingBox(host, config)] else []
    {
      if view.None? || view.value in decorations {
        return;
      }
      var v := view.value;
      if IsToplevel(host, v) && !host[v].shouldBeDecorated {
        return;
      }
      var node := new GlowNode(v);
      node.SetActive(Some(v) == focusedView, host, config);
      node.creationTime := now;
      decorations := decorations[v := node];
    }

    /**
     * remove_decoration: the view's node, if any, is unregistered, and a focused view equal to
     * the removed one is cleared.
     */
    method RemoveDecoration(view: Option<ViewId>)
      requires Valid()
      modifies this
      ensures Valid()
      ensures decorations == if view.Some? then old(decorations) - {view.value} else old(decorations)
      ensures focusedView == if old(focusedView) == view then None else old(focusedView)
      ensures config == old(config) && timerArmed == old(timerArmed)
    {
      if view.Some? && view.value in decorations {
        decorations := decorations - {view.value};
      }
      if focusedView == view {
        focusedView := None;
      }
    }

    /** update_focus: every node becomes active exactly when its view is the focused one. */
    method UpdateFocus(host: Host)
      requires Registered()
      modifies decorations.Values
      ensures Valid()
      ensures forall v | v in decorations ::
        && decorations[v].State() == old(decorations[v].State()).(isActive := focusedView == Some(v))
        && decorations[v].damage == old(decorations[v].damage) +
             if old(decorations[v].isActive) != (focusedView == Some(v))
             then [decorations[v].BoundingBox(host, config)] else []
    {
      var todo := decorations.Keys;
      while todo != {}
        invariant todo <= decorations.Keys
        invariant forall v | v in decorations && v !in todo ::
          && decorations[v].State() == old(decorations[v].State()).(isActive := focusedView == Some(v))
          && decorations[v].damage == old(decorations[v].damage) +
               if old(decorations[v].isActive) != (focusedView == Some(v))
               then [decorations[v].BoundingBox(host, config)] else []
        invariant forall v | v in todo ::
          decorations[v].State() == old(decorations[v].State()) && decorations[v].damage == old(decorations[v].damage)
        decreases todo
      {
        var v :| v in todo;
        decorations[v].SetActive(Some(v) == focusedView, host, config);
        todo := todo - {v};
      }
    }

    /** The focus-request handler: records the requested view and re-evaluates every node. */
    method OnFocusRequest(view: Option<ViewId>, host: Host)
      requires Registered()
      modifies this, decorations.Values
      ensures Valid() && focusedView == view
      ensures decorations == old(decorations) && config == old(config) && timerArmed == old(timerArmed)
      ensures ActiveViews() == if view.Some? && view.value in decorations then {view.value} else {}
      ensures forall v | v in decorations ::
        && decorations[v].State() == old(decorations[v].State()).(isActive := view == Some(v))
        && decorations[v].damage == old(decorations[v].damage) +
             if old(decorations[v].isActive) != (view == Some(v))
             then [decorations[v].BoundingBox(host, config)] else []
    {
      focusedView := view;
      UpdateFocus(host);
    }

    /** The mapped-view handler: toplevel views get a decoration (add_decoration decides). */
    method OnViewMapped(view: ViewId, host: Host, now: real)
      requires Valid()
      modifies this
      ensures Valid()
      ensures focusedView == old(focusedView) && config == old(config) && timerArmed == old(timerArmed)
      ensures !IsToplevel(host, view) || view in old(decorations) || !host[view].shouldBeDecorated ==>
        decorations == old(decorations)
      ensures IsToplevel(host, view) && view !in old(decorations) && host[view].shouldBeDecorated ==>
        && decorations.Keys == old(decorations).Keys + {view}
        && (forall w | w in old(decorations) :: decorations[w] == old(decorations)[w])
        && fresh(decorations[view])
        && decorations[view].State() == NodeState(focusedView == Some(view), 0.0, 0.0, now)
        && decorations[view].damage ==
             if focusedView == Some(view) then [decorations[view].BoundingBox(host, config)] else []
    {
      if IsToplevel(host, view) {
        AddDecoration(Some(view), host, now);
      }
    }

    /** The unmapped-view handler. */
    method OnViewUnmapped(view: ViewId)
      requires Valid()
      modifies this
      ensures Valid() && view !in decorations
      ensures decorations == old(decorations) - {view}
      ensures focusedView == if old(focusedView) == Some(view) then None else old(focusedView)
      ensures config == old(config) && timerArmed == old(timerArmed)
    {
      RemoveDecoration(Some(view));
    }

    /**
     * update_config: installs the new style, then damages every node's box once, computed
     * under the new style. Node fields are untouched.
     */
    method UpdateConfig(opts: GlowConfig, host: Host)
      requires Valid()
      modifies this, decorations.Values
      ensures Valid() && config == opts
      ensures decorations == old(decorations) && focusedView == old(focusedView) && timerArmed == old(timerArmed)
      ensures forall v | v in decorations ::
        && decorations[v].State() == old(decorations[v].State())
        && decorations[v].damage == old(decorations[v].damage) + [decorations[v].BoundingBox(host, opts)]
    {
      config := opts;
      var todo := decorations.Keys;
      while todo != {}
        invariant todo <= decorations.Keys
        invariant config == opts && decorations == old(decorations) && focusedView == old(focusedView)
        invariant timerArmed == old(timerArmed)
        invariant forall v | v in decorations :: decorations[v].State() == old(decorations[v].State())
        invariant forall v | v in decorations && v !in todo ::
          decorations[v].damage == old(decorations[v].damage) + [decorations[v].BoundingBox(host, opts)]
        invariant forall v | v in todo :: decorations[v].damage == old(decorations[v].damage)
        decreases todo
      {
        var v :| v in todo;
        decorations[v].Emit(decorations[v].BoundingBox(host, config));
        todo := todo - {v};
      }
    }

    /**
     * update_animation at clock `elapsed`: every node of a mapped view gets the scaled
     * animation time (damaging its box) and the fade-in opacity of its age; nodes of unmapped
     * views are left as they are.
     */
    method UpdateAnimation(host: Host, elapsed: real)
      requires Valid()
      modifies decorations.Values
      ensures Valid()
      ensures forall v | v in decorations ::
        AfterTick(decorations[v], old(decorations[v].State()), old(decorations[v].damage), host, config, elapsed)
    {
      var todo := decorations.Keys;
      while todo != {}
        invariant todo <= decorations.Keys
        invariant Valid()
        invariant forall v | v in decorations && v !in todo ::
          AfterTick(decorations[v], old(decorations[v].State()), old(decorations[v].damage), host, config, elapsed)
        invariant forall v | v in todo ::
          decorations[v].State() == old(decorations[v].State()) && decorations[v].damage == old(decorations[v].damage)
        decreases todo
      {
        var v :| v in todo;
        TickNode(decorations[v], host, config, elapsed);
        todo := todo - {v};
      }
    }

    /** The body of update_animation's loop for one node. */
    static method TickNode(node: GlowNode, host: Host, cfg: GlowConfig, elapsed: real)
      modifies node
      ensures AfterTick(node, old(node.State()), old(node.damage), host, cfg, elapsed)
    {
      if ViewBox(host, node.view).Some? {
        node.SetAnimationTime(elapsed * cfg.animationSpeed, host, cfg);
        var age := elapsed - node.creationTime;
        node.opacity := FadeOpacity(age);
      }
    }

    /** Arms the animation timer (the end of init). */
    method StartAnimationTimer()
      modifies this
      ensures timerArmed
      ensures decorations == old(decorations) && focusedView == old(focusedView) && config == old(config)
    {
      timerArmed := true;
    }

    /** The timer callback: one animation tick; the timer is re-armed. */
    method OnAnimationTimer(host: Host, elapsed: real)
      requires Valid() && timerArmed
      modifies decorations.Values
      ensures Valid() && timerArmed
      ensures forall v | v in decorations ::
        AfterTick(decorations[v], old(decorations[v].State()), old(decorations[v].damage), host, config, elapsed)
    {
      UpdateAnimation(host, elapsed);
    }

    /**
     * fini: the timer is cancelled, all decorations are dropped, and the program is destroyed
     * when it is compiled (an uncompiled program, even one holding names, is left as it is).
     */
    method Fini()
      requires Valid()
      modifies this, program
      ensures Valid() && !timerArmed && decorations == map[]
      ensures focusedView == old(focusedView) && config == old(config)
      ensures program.State() == if old(program.compiled) then DestroyStep(old(program.State())) else old(program.State())
    {
      if timerArmed {
        timerArmed := false;
      }
      decorations := map[];
      if program.compiled {
        program.Destroy();
      }
    }
  }
}
