/** `topMostViewController` and `topMostTabBarViewController` over a
    controller hierarchy: plain, navigation and tab-bar controllers, each
    with an optional presented controller. */
module TopMostVC {
  import opened Wrappers

  datatype Controller =
    | Plain(presented: Option<Controller>)
    | Navigation(presented: Option<Controller>, visible: Option<Controller>)
    | TabBar(presented: Option<Controller>, selected: Option<Controller>)

  /** Nothing is presented on it and it has no child to descend into. */
  predicate IsTop(c: Controller) {
    && c.presented.None?
    && (c.Navigation? ==> c.visible.None?)
    && (c.TabBar? ==> c.selected.None?)
  }

  /** `d` is `c` or lies below it, through presented, visible or selected children. */
  predicate Within(d: Controller, c: Controller)
  {
    || d == c
    || (c.presented.Some? && Within(d, c.presented.value))
    || (c.Navigation? && c.visible.Some? && Within(d, c.visible.value))
    || (c.TabBar? && c.selected.Some? && Within(d, c.selected.value))
  }

  /** `topMostViewController()`. */
  function TopMost(c: Controller): (r: Controller)
    ensures IsTop(r)
    ensures Within(r, c)
  {
    if c.presented.Some? then TopMost(c.presented.value)
    else match c
      case Navigation(_, visible) => if visible.Some? then TopMost(visible.value) else c
      case TabBar(_, selected) => if selected.Some? then TopMost(selected.value) else c
      case Plain(_) => c
  }

  /** `topMostTabBarViewController()`: follows visible children of navigation
      controllers only. */
  function TopMostTabBar(c: Controller): (r: Controller)
    ensures !(r.Navigation? && r.visible.Some?)
    ensures Within(r, c)
  {
    match c
    case Navigation(_, visible) => if visible.Some? then TopMostTabBar(visible.value) else c
    case _ => c
  }

  /** A presented controller wins over navigation and tab containment. */
  lemma PresentedTakesPriority(c: Controller)
    requires c.presented.Some?
    ensures TopMost(c) == TopMost(c.presented.value)
  {
  }

  /** A controller with nothing presented and nothing to descend into is its own top. */
  lemma TopIsFixedPoint(c: Controller)
    requires IsTop(c)
    ensures TopMost(c) == c
  {
  }

  /** Asking again from the top-most controller gives it back. */
  lemma TopMostIdempotent(c: Controller)
    ensures TopMost(TopMost(c)) == TopMost(c)
  {
    TopIsFixedPoint(TopMost(c));
  }

  /** Plain and tab-bar controllers are their own tab-bar top, whatever they
      present or select. */
  lemma TopMostTabBarStopsOutsideNavigation(c: Controller)
    requires !c.Navigation?
    ensures TopMostTabBar(c) == c
  {
  }

  /** A navigation controller's tab-bar top does not depend on what it presents. */
  lemma TopMostTabBarIgnoresPresented(c: Controller, p: Option<Controller>)
    requires c.Navigation? && c.visible.Some?
    ensures TopMostTabBar(Navigation(p, c.visible)) == TopMostTabBar(c)
  {
  }
}
