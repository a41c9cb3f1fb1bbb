/**
 * The page state that the handlers of script.js update, as one object:
 * the theme, the mobile menu, the anchors' `active` classes, the navbar
 * and the scroll timers. Element geometry and scroll offsets are read
 * from the DOM in the source; here they are parameters of the handlers.
 */
module Portfolio {
  import opened Wrappers
  import Theme
  import Menu
  import ActiveNav
  import Navbar
  import Debounce

  class Page {
    /** The theme variable, the body's `data-theme` attribute, the icon text, the `theme-transitioning` class. */
    var currentTheme: string
    var dataTheme: string
    var themeIcon: string
    var transitioning: bool

    /** The `active` classes of the hamburger and the nav menu, and the body's inline overflow. */
    var hamburgerActive: bool
    var navMenuActive: bool
    var overflow: string

    /** Every `a` element of the document, in document order. */
    var anchors: seq<ActiveNav.Anchor>

    /** The offset of the previous navbar update, and the navbar's inline styles. */
    var lastScrollTop: nat
    var navbar: Navbar.Style

    /**
     * The pending timers: the first scroll listener's own `scrollTimeout`,
     * and the debounced `updateActiveNav` and `handleNavbarScroll` of the
     * second scroll listener.
     */
    const scrollTimer: Debounce.Debouncer<()>
    const activeNavDebounce: Debounce.Debouncer<()>
    const navbarDebounce: Debounce.Debouncer<()>

    function MenuView(): Menu.MenuState
      reads this
    {
      Menu.MenuState(hamburgerActive, navMenuActive, overflow)
    }

    /** The attribute and the icon agree with the theme variable. */
    ghost predicate ThemeShown()
      reads this
    {
      dataTheme == currentTheme && themeIcon == Theme.Label(currentTheme)
    }

    ghost predicate Valid()
      reads this
    {
      && ThemeShown()
      && Menu.Consistent(MenuView())
      && scrollTimer != activeNavDebounce
      && scrollTimer != navbarDebounce
      && activeNavDebounce != navbarDebounce
    }

    /** The page as loaded: the script applies the "light" theme at once. */
    constructor (links: seq<ActiveNav.Anchor>)
      ensures Valid()
      ensures currentTheme == Theme.Light && themeIcon == "LIGHT" && transitioning
      ensures MenuView() == Menu.Initial
      ensures anchors == links
      ensures lastScrollTop == 0 && navbar == Navbar.Unstyled
      ensures fresh(scrollTimer) && fresh(activeNavDebounce) && fresh(navbarDebounce)
      ensures scrollTimer.View() == Debounce.Slot(None, [])
      ensures activeNavDebounce.View() == Debounce.Slot(None, [])
      ensures navbarDebounce.View() == Debounce.Slot(None, [])
    {
      currentTheme := Theme.Light;
      dataTheme, themeIcon, transitioning := "", "", false;
      hamburgerActive, navMenuActive, overflow := false, false, Menu.Unset;
      anchors := links;
      lastScrollTop, navbar := 0, Navbar.Unstyled;
      scrollTimer := new Debounce.Debouncer();
      activeNavDebounce := new Debounce.Debouncer();
      navbarDebounce := new Debounce.Debouncer();
      new;
      ApplyTheme(currentTheme);
    }

    /** `applyTheme`: sets the attribute, the variable and the icon, and starts the transition class. */
    method ApplyTheme(theme: string)
      modifies this`currentTheme, this`dataTheme, this`themeIcon, this`transitioning
      ensures ThemeShown()
      ensures currentTheme == theme && dataTheme == theme && transitioning
      ensures themeIcon == "DARK" <==> theme == Theme.Dark
    {
      dataTheme := theme;
      currentTheme := theme;
      themeIcon := Theme.Label(theme);
      transitioning := true;
    }

    /** The 300 ms timer started by `applyTheme` going off. */
    method EndThemeTransition()
      requires Valid()
      modifies this`transitioning
      ensures Valid()
      ensures !transitioning
    {
      transitioning := false;
    }

    /** A click on the theme toggle. */
    method ToggleTheme()
      requires Valid()
      modifies this`currentTheme, this`dataTheme, this`themeIcon, this`transitioning
      ensures Valid()
      ensures currentTheme == Theme.Flipped(old(currentTheme)) && transitioning
      ensures dataTheme == currentTheme && themeIcon == Theme.Label(currentTheme)
    {
      var newTheme := if currentTheme == Theme.Dark then Theme.Light else Theme.Dark;
      ApplyTheme(newTheme);
    }

    /** A click on the hamburger: both `active` classes toggle, and the body's scrolling follows the menu. */
    method HamburgerClick()
      requires Valid()
      modifies this`hamburgerActive, this`navMenuActive, this`overflow
      ensures Valid()
      ensures MenuView() == Menu.Next(old(MenuView()), Menu.HamburgerClick)
      ensures navMenuActive == !old(navMenuActive) && hamburgerActive == navMenuActive
      ensures overflow == (if navMenuActive then Menu.Hidden else Menu.Auto)
    {
      hamburgerActive := !hamburgerActive;
      navMenuActive := !navMenuActive;
      if navMenuActive {
        overflow := Menu.Hidden;
      } else {
        overflow := Menu.Auto;
      }
      Menu.NextConsistent(old(MenuView()), Menu.HamburgerClick);
    }

    /** The three statements every closing handler runs. */
    method CloseMenu()
      modifies this`hamburgerActive, this`navMenuActive, this`overflow
      ensures MenuView() == Menu.Closed
    {
      hamburgerActive := false;
      navMenuActive := false;
      overflow := Menu.Auto;
    }

    /** A click on any nav link closes the menu. */
    method NavLinkClick()
      requires Valid()
      modifies this`hamburgerActive, this`navMenuActive, this`overflow
      ensures Valid()
      ensures MenuView() == Menu.Next(old(MenuView()), Menu.NavLinkClick) == Menu.Closed
    {
      CloseMenu();
    }

    /** A click reaching the document closes the menu unless it landed in the hamburger or the menu. */
    method DocumentClick(inHamburger: bool, inNavMenu: bool)
      requires Valid()
      modifies this`hamburgerActive, this`navMenuActive, this`overflow
      ensures Valid()
      ensures MenuView() == Menu.Next(old(MenuView()), Menu.DocumentClick(inHamburger, inNavMenu))
      ensures MenuView() == if !inHamburger && !inNavMenu then Menu.Closed else old(MenuView())
    {
      if !inHamburger && !inNavMenu {
        CloseMenu();
      }
    }

    /** Escape closes the menu; other keys do nothing here. */
    method KeyDown(key: string)
      requires Valid()
      modifies this`hamburgerActive, this`navMenuActive, this`overflow
      ensures Valid()
      ensures MenuView() == Menu.Next(old(MenuView()), Menu.KeyDown(key))
      ensures MenuView() == if key == "Escape" then Menu.Closed else old(MenuView())
    {
      if key == "Escape" {
        CloseMenu();
      }
    }

    /** Widening the window past 768 pixels closes the menu. */
    method Resize(innerWidth: int)
      requires Valid()
      modifies this`hamburgerActive, this`navMenuActive, this`overflow
      ensures Valid()
      ensures MenuView() == Menu.Next(old(MenuView()), Menu.Resize(innerWidth))
      ensures MenuView() == if innerWidth > Menu.DesktopWidth then Menu.Closed else old(MenuView())
    {
      if innerWidth > Menu.DesktopWidth {
        CloseMenu();
      }
    }

    /**
     * `updateActiveNav`: choose the section under the header, clear
     * `active` from every nav link, then mark the first anchor pointing
     * at the chosen section.
     */
    method UpdateActiveNav(sections: seq<ActiveNav.Section>, scrollY: int)
      requires Valid()
      modifies this`anchors
      ensures Valid()
      ensures anchors == ActiveNav.Highlighted(old(anchors), ActiveNav.LastCovering(sections, scrollY + ActiveNav.HeaderOffset))
    {
      var active := ActiveNav.SelectActive(sections, scrollY);
      ghost var before := anchors;
      for i := 0 to |anchors|
        invariant |anchors| == |before|
        invariant forall j | 0 <= j < i :: anchors[j] == ActiveNav.Cleared(before)[j]
        invariant forall j | i <= j < |anchors| :: anchors[j] == before[j]
      {
        if anchors[i].isNavLink {
          anchors := anchors[i := anchors[i].(active := false)];
        }
      }
      assert anchors == ActiveNav.Cleared(before);
      if active != "" {
        var target := ActiveNav.FirstWithHref(anchors, "#" + active);
        if target.Some? {
          var k := target.value;
          anchors := anchors[k := anchors[k].(active := true)];
        }
      }
    }

    /** `handleNavbarScroll`: restyle the navbar for the current offset and remember it. */
    method HandleNavbarScroll(pageYOffset: int, scrollTop: int)
      requires Valid()
      modifies this`navbar, this`lastScrollTop
      ensures Valid()
      ensures Navbar.Outcome(navbar, lastScrollTop)
              == Navbar.Handle(old(lastScrollTop), Navbar.CurrentScroll(pageYOffset, scrollTop))
    {
      var currentScroll := Navbar.CurrentScroll(pageYOffset, scrollTop);
      if currentScroll > Navbar.ShadowThreshold {
        navbar := navbar.(backdropFilter := Navbar.Blur, boxShadow := Navbar.ElevatedShadow);
      } else {
        navbar := navbar.(backdropFilter := Navbar.Blur, boxShadow := Navbar.NoShadow);
      }
      if currentScroll > lastScrollTop && currentScroll > Navbar.HideThreshold {
        navbar := navbar.(transform := Navbar.HiddenTransform);
      } else {
        navbar := navbar.(transform := Navbar.ShownTransform);
      }
      lastScrollTop := if currentScroll <= 0 then 0 else currentScroll;
    }

    /** A scroll event: both scroll listeners replace their pending timers. */
    method OnScroll()
      requires Valid()
      modifies scrollTimer, activeNavDebounce, navbarDebounce
      ensures Valid()
      ensures scrollTimer.View() == Debounce.Step(old(scrollTimer.View()), Debounce.Call(()))
      ensures activeNavDebounce.View() == Debounce.Step(old(activeNavDebounce.View()), Debounce.Call(()))
      ensures navbarDebounce.View() == Debounce.Step(old(navbarDebounce.View()), Debounce.Call(()))
    {
      scrollTimer.Call(());
      activeNavDebounce.Call(());
      navbarDebounce.Call(());
    }

    /**
     * The burst has settled: the pending timers go off in the order they
     * were set, all reading the same scroll position. The first listener's
     * timer runs both handlers; each debounced one runs its own.
     */
    method Settle(sections: seq<ActiveNav.Section>, scrollY: int, scrollTop: int)
      requires Valid()
      modifies this`anchors, this`navbar, this`lastScrollTop
      modifies scrollTimer, activeNavDebounce, navbarDebounce
      ensures Valid()
      ensures scrollTimer.View() == Debounce.Step(old(scrollTimer.View()), Debounce.Fire)
      ensures activeNavDebounce.View() == Debounce.Step(old(activeNavDebounce.View()), Debounce.Fire)
      ensures navbarDebounce.View() == Debounce.Step(old(navbarDebounce.View()), Debounce.Fire)
      ensures anchors ==
              if old(scrollTimer.pending.Some? || activeNavDebounce.pending.Some?)
              then ActiveNav.Highlighted(old(anchors), ActiveNav.LastCovering(sections, scrollY + ActiveNav.HeaderOffset))
              else old(anchors)
      ensures var current := Navbar.CurrentScroll(scrollY, scrollTop);
              Navbar.Outcome(navbar, lastScrollTop) ==
              match (old(scrollTimer.pending.Some?), old(navbarDebounce.pending.Some?))
              case (false, false) => Navbar.Outcome(old(navbar), old(lastScrollTop))
              case (true, true) => Navbar.SettledTwice(old(lastScrollTop), current)
              case _ => Navbar.Handle(old(lastScrollTop), current)
      ensures old(scrollTimer.pending.Some? && navbarDebounce.pending.Some?) ==> navbar.transform == Navbar.ShownTransform
    {
      var ran := scrollTimer.Fire();
      if ran.Some? {
        UpdateActiveNav(sections, scrollY);
        HandleNavbarScroll(scrollY, scrollTop);
      }
      ran := activeNavDebounce.Fire();
      if ran.Some? {
        UpdateActiveNav(sections, scrollY);
        ActiveNav.HighlightedIdempotent(old(anchors), ActiveNav.LastCovering(sections, scrollY + ActiveNav.HeaderOffset));
      }
      ran := navbarDebounce.Fire();
      if ran.Some? {
        HandleNavbarScroll(scrollY, scrollTop);
      }
    }
  }
}
