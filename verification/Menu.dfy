/**
 * The mobile navigation menu (script.js:41-74, script.js:477-494): the
 * `active` class of the hamburger button and of the nav menu, and the
 * inline `overflow` style of the body, as a value, with the effect of
 * each of the five events that touch them.
 */
module Menu {

  /** Values the handlers write into `body.style.overflow`; "" is the unset style. */
  const Unset := ""
  const Hidden := "hidden"
  const Auto := "auto"

  /** The window width above which a resize closes the menu. */
  const DesktopWidth := 768

  datatype MenuState = MenuState(hamburgerActive: bool, navMenuActive: bool, overflow: string)

  /** The state before any event: neither element carries `active`, no inline overflow. */
  const Initial := MenuState(false, false, Unset)

  /** The state every closing handler writes. */
  const Closed := MenuState(false, false, Auto)

  datatype MenuEvent =
    | HamburgerClick
    | NavLinkClick
      /** A click anywhere, seen by the document listener, with where its target lies. */
    | DocumentClick(inHamburger: bool, inNavMenu: bool)
    | KeyDown(key: string)
    | Resize(innerWidth: int)

  /** Whether an event runs one of the four closing handlers. */
  predicate Closes(e: MenuEvent)
  {
    match e
    case HamburgerClick => false
    case NavLinkClick => true
    case DocumentClick(inHamburger, inNavMenu) => !inHamburger && !inNavMenu
    case KeyDown(key) => key == "Escape"
    case Resize(innerWidth) => innerWidth > DesktopWidth
  }

  /** What one event does to the menu. */
  function Next(m: MenuState, e: MenuEvent): (m': MenuState)
    ensures e.HamburgerClick? ==>
              && m'.hamburgerActive == !m.hamburgerActive
              && m'.navMenuActive == !m.navMenuActive
              && (m'.overflow == Hidden <==> m'.navMenuActive)
              && (m'.overflow == Hidden || m'.overflow == Auto)
    ensures Closes(e) ==> m' == Closed
    ensures !e.HamburgerClick? && !Closes(e) ==> m' == m
  {
    if e.HamburgerClick? then
      var navMenuActive := !m.navMenuActive;
      MenuState(!m.hamburgerActive, navMenuActive, if navMenuActive then Hidden else Auto)
    else if Closes(e) then
      Closed
    else
      m
  }

  /**
   * The menu invariant: the two `active` flags move together and the
   * body's scrolling is blocked exactly while the menu is open.
   */
  predicate Consistent(m: MenuState)
  {
    m.hamburgerActive == m.navMenuActive && (m.overflow == Hidden <==> m.navMenuActive)
  }

  /** The effect of a sequence of events, in order. */
  function Run(m: MenuState, events: seq<MenuEvent>): MenuState
    decreases |events|
  {
    if events == [] then m else Run(Next(m, events[0]), events[1..])
  }

  /** One event keeps the invariant. */
  lemma NextConsistent(m: MenuState, e: MenuEvent)
    requires Consistent(m)
    ensures Consistent(Next(m, e))
  {
  }

  /** Any sequence of events from a consistent state keeps the invariant. */
  lemma {:induction false} RunConsistent(m: MenuState, events: seq<MenuEvent>)
    requires Consistent(m)
    ensures Consistent(Run(m, events))
    decreases |events|
  {
    if events != [] {
      NextConsistent(m, events[0]);
      RunConsistent(Next(m, events[0]), events[1..]);
    }
  }

  /**
   * After any history, the menu is open exactly when the number of
   * hamburger clicks since the last closing event is odd.
   */
  function OpenAfter(open: bool, events: seq<MenuEvent>): bool
    decreases |events|
  {
    if events == [] then open
    else if events[0].HamburgerClick? then OpenAfter(!open, events[1..])
    else if Closes(events[0]) then OpenAfter(false, events[1..])
    else OpenAfter(open, events[1..])
  }

  lemma {:induction false} RunOpenAfter(m: MenuState, events: seq<MenuEvent>)
    requires Consistent(m)
    ensures Run(m, events).navMenuActive == OpenAfter(m.navMenuActive, events)
    ensures Run(m, events).hamburgerActive == OpenAfter(m.navMenuActive, events)
    decreases |events|
  {
    if events != [] {
      NextConsistent(m, events[0]);
      RunOpenAfter(Next(m, events[0]), events[1..]);
    }
  }
}
