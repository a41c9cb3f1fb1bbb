# Portfolio page script: the state behind its handlers

`script.js` drives a one-page portfolio site. Most of it attaches DOM
listeners for cosmetic effects. This project models the handlers that
make discrete decisions from a small amount of state:

- the light/dark **theme toggle**: the `currentTheme` variable, the
  body's `data-theme` attribute and the DARK/LIGHT icon text;
- the **mobile menu**: the `active` classes of the hamburger button and
  of the nav menu, and the body's inline `overflow`, under the five
  events that touch them;
- **active-section highlighting** (`updateActiveNav`): the scan that picks
  the section under the fixed header, then the clear-and-mark pass over
  the navigation links;
- the **navbar** (`handleNavbarScroll`): its shadow, whether it slides
  out of view, and the remembered offset `lastScrollTop`;
- **debounce**: the pending timer of a debounced function, as a single
  slot that each call replaces and that the timer empties when it fires.

The DOM is reduced to data. Sections are `(id, top, height)` in document
order. Anchors (every `a` element) are `(href, isNavLink, active)` in
document order. The theme, menu, navbar and timers are fields of one
object, `Portfolio.Page`. Scroll offsets, element geometry, the key
pressed, the window width and where a click landed are parameters of the
handler methods.

The pure decision rules are functions in `Theme`, `Menu`, `ActiveNav`,
`Navbar` and `Debounce`. The handlers are methods of `Portfolio.Page`,
each proved against those functions. The scan of `updateActiveNav` and
its clearing pass are loops, as in the source.

Three behaviours of the code worth stating:

- `updateActiveNav` clears every nav link unconditionally
  (script.js:114). When no section covers the scroll position, every nav
  link ends up inactive.
- With one run of `handleNavbarScroll` per sample, the scroll samples
  0, 100, 250, 600 leave the bar shown, shown, hidden, hidden: at 250,
  both 250 > 100 and 250 > 200 hold. On the page as written, two runs
  happen after each settled burst, and the bar ends shown (see
  "## Findings").
- The selector at script.js:118 finds the first `a` element with that
  href anywhere in the document. This need not be a nav link. The clear
  at script.js:114 only touches `.nav-link` elements, so an ordinary
  anchor that was marked keeps its `active` class.

## Model

| member | source | states |
|---|---|---|
| `Theme.Label` | script.js:10-12 | the icon reads DARK exactly when the theme is "dark", and LIGHT otherwise |
| `Theme.Flipped` | script.js:31 | a click leads to "dark" from anything but "dark", and to "light" from "dark"; the theme always changes |
| `Theme.FlipTwiceRestores` | script.js:30-32 | two clicks restore "light" or "dark" |
| `Theme.FlipTwiceFromUnknown` | script.js:31 | two clicks from any other value end on "light", not on the starting value |
| `Menu.Next` | script.js:45-74 | a hamburger click toggles both flags, and overflow becomes hidden exactly when the menu is open; a nav-link click, an outside click, Escape and a resize wider than 768 all close the menu with overflow auto; every other event changes nothing |
| `Menu.NextConsistent` | script.js:45-55 | one event keeps both flags equal and keeps overflow hidden exactly while the menu is open |
| `Menu.RunConsistent` | script.js:45-74 | any sequence of menu events from a consistent state keeps that invariant |
| `Menu.RunOpenAfter` | script.js:45-55 | after any sequence of events, both flags equal the parity of hamburger clicks since the last closing event |
| `ActiveNav.Covers` | script.js:108 | a section covers a position only if its height is positive and its top is at or above the position |
| `ActiveNav.LastCovering` | script.js:101-111 | the scan's result is "" or the id of some section covering the position |
| `ActiveNav.LastCoveringIsLast` | script.js:103-111 | the chosen id belongs to the last section in document order with top <= position < top + height |
| `ActiveNav.NoneCovering` | script.js:101-111 | when no section covers the position, the chosen id is "" |
| `ActiveNav.StackedSelectsCovering` | script.js:103-111 | for sections laid out without overlap, the one covering the position is chosen |
| `ActiveNav.SelectActive` | script.js:97-111 | the forward scan that overwrites its accumulator returns the last covering section's id for scrollY + 100 |
| `ActiveNav.FirstWithHref` | script.js:118 | the lookup returns the first anchor with exactly that href, or nothing when no anchor has it |
| `ActiveNav.Target` | script.js:117-119 | for a non-empty id, the target is the first anchor whose href is `#` + id; an empty id or a missing anchor gives no target |
| `ActiveNav.Cleared` | script.js:114 | after the clear, no nav link is active, anchors that are not nav links are unchanged, and every href and class is kept |
| `ActiveNav.Highlighted` | script.js:113-122 | after the update, an anchor is active exactly when it is the first `#id` anchor for a non-empty chosen id, or it was active and is not a nav link; hrefs and classes are kept |
| `ActiveNav.AtMostOneNavLinkActive` | script.js:113-122 | after the update, at most one nav link is active |
| `ActiveNav.NoTargetClearsNavLinks` | script.js:113-122 | with no chosen section, or no anchor pointing at it, every nav link ends inactive |
| `ActiveNav.OtherAnchorsUnchanged` | script.js:114-120 | an anchor that is neither a nav link nor the target is left as it was |
| `ActiveNav.HighlightedIdempotent` | script.js:113-122 | running the update a second time at the same position changes nothing |
| `ActiveNav.TwoSectionScenario` | script.js:99-111 | sections a [0, 500) and b [500, 1000) at scrollY 550 choose "b" |
| `Navbar.CurrentScroll` | script.js:131 | the offset read is `pageYOffset`, or the root's `scrollTop` when `pageYOffset` is 0 |
| `Navbar.ShadowFor` | script.js:134-140 | the shadow is the elevated one exactly when the offset is above 50, and "none" otherwise |
| `Navbar.TransformFor` | script.js:143-149 | the bar is translated out exactly when the offset rose above the last one and is above 200; it is shown in every other case |
| `Navbar.Clamped` | script.js:151 | the remembered offset is max(0, current) |
| `Navbar.Handle` | script.js:129-152 | one run sets the same blur in both branches, sets the shadow and the transform by the two thresholds, and remembers the current offset when it is positive |
| `Navbar.HideOnScrollDown` | script.js:143-145 | scrolling from 100 to 250 hides the bar |
| `Navbar.SecondRunShows` | script.js:143-151 | a second run at the same offset always shows the bar |
| `Navbar.ReplayRemembersLast` | script.js:151 | after any non-empty sequence of samples, `lastScrollTop` is the last sample clamped at 0 |
| `Navbar.HiddenIffRising` | script.js:143-151 | within any sequence of samples, a sample after the first hides the bar exactly when it is greater than the previous sample and above 200 |
| `Navbar.FourSampleScenario` | script.js:143-151 | samples 0, 100, 250, 600, one run each with the remembered offset carried from run to run, leave the bar shown, shown, hidden, hidden |
| `Navbar.SettledTwice` | script.js:155-166 | running the handler twice at one offset, once per scroll listener, always ends with the bar shown and the offset remembered |
| `Navbar.DoubleRunNeverHides` | script.js:513-518 | scrolling from 100 to 250 hides the bar after one run and shows it after the second |
| `Debounce.Step` | script.js:497-507 | a call replaces the pending arguments and runs nothing; firing runs the pending arguments once and empties the slot; firing with nothing pending changes nothing |
| `Debounce.BurstKeepsLast` | script.js:504-505 | a burst of calls leaves only the last call's arguments pending and runs nothing |
| `Debounce.BurstThenFire` | script.js:497-507 | a burst followed by the timer runs the wrapped function exactly once, with the last call's arguments |
| `Debounce.InvocationsBoundedByFires` | script.js:500-505 | earlier runs are kept, and there are at most as many new runs as timer firings |
| `Debounce.Debouncer.constructor` | script.js:498 | a fresh wrapper has nothing pending and has run nothing |
| `Debounce.Debouncer.Call` | script.js:499-506 | a call cancels the pending run and schedules one with its own arguments |
| `Debounce.Debouncer.Fire` | script.js:500-503 | the timer runs the pending arguments once and empties the slot |
| `Portfolio.Page.constructor` | script.js:7-27 | the page starts with the "light" theme applied, the menu closed and overflow unset, `lastScrollTop` 0, the navbar unstyled and no timer pending |
| `Portfolio.Page.ApplyTheme` | script.js:14-24 | the attribute and the variable take the theme, the icon follows it, and the transition class is on |
| `Portfolio.Page.EndThemeTransition` | script.js:21-23 | the 300 ms callback removes the transition class |
| `Portfolio.Page.ToggleTheme` | script.js:30-32 | a click applies the flipped theme and keeps attribute and icon in step with it |
| `Portfolio.Page.HamburgerClick` | script.js:45-55 | both classes toggle and stay equal; overflow is hidden exactly when the menu is now open |
| `Portfolio.Page.CloseMenu` | script.js:61-63 | both classes are removed and overflow becomes auto, the statements shared by the four closing handlers (also script.js:70-72, 481-483, 490-492) |
| `Portfolio.Page.NavLinkClick` | script.js:59-65 | a nav-link click closes the menu and sets overflow auto |
| `Portfolio.Page.DocumentClick` | script.js:68-74 | a click outside both the hamburger and the menu closes the menu; a click inside either changes nothing |
| `Portfolio.Page.KeyDown` | script.js:478-485 | Escape closes the menu; other keys change nothing |
| `Portfolio.Page.Resize` | script.js:488-494 | a width above 768 closes the menu; a narrower one changes nothing |
| `Portfolio.Page.UpdateActiveNav` | script.js:97-123 | the anchors become the highlighted anchors for the last section covering scrollY + 100 |
| `Portfolio.Page.HandleNavbarScroll` | script.js:129-152 | the navbar styles and `lastScrollTop` become one run of the handler at `pageYOffset`, or at `scrollTop` when that is 0 |
| `Portfolio.Page.OnScroll` | script.js:514-518 | a scroll event replaces the pending run of the first listener's timer and of both debounced handlers |
| `Portfolio.Page.Settle` | script.js:162-165 | when the timers fire, each pending one runs its handlers; with both listeners pending, the active-nav update is applied once in effect and the navbar ends shown |

## Findings

| source | as written | input that shows it | evidently intended | confidence | as-written member | corrected member |
|---|---|---|---|---|---|---|
| script.js:155-166 | The first scroll listener stays registered next to the debounced one that was meant to replace it (script.js:513-518). After a burst settles, `handleNavbarScroll` runs twice at the same offset. The first run stores the offset in `lastScrollTop`, so the second run always shows the bar again. | Scrolling from 100 to 250: the first run hides the bar, and the second run shows it. | One listener, so scrolling down past 200 leaves the bar hidden. | medium, not executed | `Navbar.DoubleRunNeverHides` | `Navbar.HiddenIffRising` |

The corrected behaviour is one run of `Navbar.Handle` per settled burst.
`Portfolio.Page.Settle` still models the page as written. When only one
of the two timers is pending, it performs exactly that single run.

## Left out

- Parallax (script.js:461-475) is not modelled. It writes a floating-point `scrolled * -0.3` into a CSS string on animation frames.
- Particles, ripples, the typewriter, the logo, skill-icon, hero and load animations, and the keyframe injection (script.js:194-459, script.js:521-533) are not modelled. They are cosmetic and rely on random numbers, element geometry and timer chains.
- The IntersectionObserver (script.js:169-191) and the avatar upload through `FileReader` (script.js:363-403) are not modelled. Both are host APIs and I/O.
- Smooth scrolling on nav-link clicks (script.js:77-94) is not modelled. It computes the target from `getBoundingClientRect`, and does nothing when the target section is missing. Only the menu-closing effect of a nav-link click is modelled.
- The toggle button's brief `scale(0.95)` effect (script.js:35-38) is not modelled. It is a cosmetic inline style reset by a 150 ms timer.
- Console logging (script.js:536-537) is not modelled.
- Timers carry no delays. The 10 ms and 300 ms waits become methods that the caller invokes: `Settle` and `EndThemeTransition`. `Settle` fires the pending timers in the order they were set, which is the order of equal-delay timers in a browser.
- Scroll offsets, section tops and heights are integers. Browsers may report fractional offsets.
- The handlers assume that the `.navbar`, `.theme-icon`, `.hamburger` and `.nav-menu` elements exist. The source would throw on a missing one; the model has no such case.
- A section without an `id` is represented with id "". The source's `null` is falsy too, so it marks no link.
- The selector at script.js:118 is treated as matching the literal href `#id`. An id containing `"` or `\` would make that selector invalid in the browser, and this is not modelled.
- Every `.nav-link` element is taken to be an `a` element in the anchor sequence.
- `Debounce.Debouncer.Fire` does not call the wrapped function. It returns the pending arguments and records the run in `invocations`; `Portfolio.Page.Settle` then runs the handler itself.
