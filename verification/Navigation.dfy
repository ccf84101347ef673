/** The mobile navigation menu's flags: the `active` class on the toggle
    button, the menu and the overlay, and whether page scrolling is
    locked (`body.style.overflow = 'hidden'`). The overlay element may be
    missing from the page. */
module Navigation {

  datatype NavState = NavState(toggle: bool, menu: bool, overlay: bool, scrollLocked: bool)

  /** The page's events that touch the menu. A click on the toggle button
      or inside the menu does not count as a click outside. */
  datatype NavEvent = ToggleClick | OverlayClick | LinkClick | OutsideClick | Escape

  const Closed := NavState(false, false, false, false)

  /** The three flags agree, the overlay is only shown when it exists, and
      scrolling is locked exactly while the menu is open. */
  predicate Inv(s: NavState, hasOverlay: bool) {
    && s.toggle == s.menu
    && s.overlay == (hasOverlay && s.menu)
    && s.scrollLocked == s.menu
  }

  /** What every closing handler does: remove `active` from the toggle,
      the menu and, when it exists, the overlay, and unlock scrolling.
      Whatever the flags were, the result is consistent unless the page
      lacks the overlay and its flag was somehow set; from a consistent
      state the result is the closed menu. */
  function Close(s: NavState, hasOverlay: bool): (r: NavState)
    ensures Inv(r, hasOverlay) <==> hasOverlay || !s.overlay
    ensures Inv(s, hasOverlay) ==> r == Closed
  {
    NavState(false, false, if hasOverlay then false else s.overlay, false)
  }

  /** One event. The toggle handler flips each class on its own and then
      sets the scroll lock from the menu's class; the Escape handler only
      acts when the menu is open. */
  function Handle(s: NavState, e: NavEvent, hasOverlay: bool): (r: NavState)
    ensures e == Escape && !s.menu ==> r == s
    ensures e != Escape || s.menu ==> r.scrollLocked == r.menu
    ensures e != ToggleClick ==> !r.menu
    ensures e == ToggleClick ==> r.menu == !s.menu && r.toggle == !s.toggle
    ensures !hasOverlay ==> (r.overlay ==> s.overlay)
  {
    match e
    case ToggleClick =>
      var menu := !s.menu;
      NavState(!s.toggle, menu, if hasOverlay then !s.overlay else s.overlay, menu)
    case Escape =>
      if s.menu then Close(s, hasOverlay) else s
    case _ => Close(s, hasOverlay)
  }

  /** Every event keeps the flags in agreement. */
  lemma HandleKeepsInv(s: NavState, e: NavEvent, hasOverlay: bool)
    requires Inv(s, hasOverlay)
    ensures Inv(Handle(s, e, hasOverlay), hasOverlay)
  {
  }

  /** The flags after a sequence of events. */
  function Run(s: NavState, es: seq<NavEvent>, hasOverlay: bool): (r: NavState)
    decreases |es|
  {
    if es == [] then s else Run(Handle(s, es[0], hasOverlay), es[1..], hasOverlay)
  }

  /** Any sequence of events keeps the flags in agreement. */
  lemma {:induction false} RunKeepsInv(s: NavState, es: seq<NavEvent>, hasOverlay: bool)
    requires Inv(s, hasOverlay)
    ensures Inv(Run(s, es, hasOverlay), hasOverlay)
    decreases |es|
  {
    if es != [] {
      HandleKeepsInv(s, es[0], hasOverlay);
      RunKeepsInv(Handle(s, es[0], hasOverlay), es[1..], hasOverlay);
    }
  }

  lemma ClosedInv(hasOverlay: bool)
    ensures Inv(Closed, hasOverlay)
  {
  }

  /** From a consistent state, Escape ends where every other closing
      event ends: with everything closed. Its guard on the menu being open
      only matters for states the handlers never produce. */
  lemma EscapeLikeOtherClosers(s: NavState, hasOverlay: bool)
    requires Inv(s, hasOverlay)
    ensures Handle(s, Escape, hasOverlay) == Handle(s, LinkClick, hasOverlay) == Closed
    ensures Handle(s, OverlayClick, hasOverlay) == Handle(s, OutsideClick, hasOverlay) == Closed
  {
  }

  /** Two toggle clicks in a row return the menu to where it was. */
  lemma ToggleTwice(s: NavState, hasOverlay: bool)
    ensures Handle(Handle(s, ToggleClick, hasOverlay), ToggleClick, hasOverlay) == s.(scrollLocked := s.menu)
  {
  }
}
