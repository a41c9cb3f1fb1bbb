/**
 * The navbar's reaction to scrolling (script.js:125-152): its shadow,
 * whether it slides out of view, and the remembered offset of the
 * previous sample (`lastScrollTop`).
 */
module Navbar {

  /** Scrolled past this, the navbar gets its shadow. */
  const ShadowThreshold := 50
  /** Scrolling down past this hides the navbar. */
  const HideThreshold := 200

  const Blur := "blur(20px) saturate(180%)"
  const ElevatedShadow := "0 1px 20px rgba(0, 0, 0, 0.05)"
  const NoShadow := "none"
  const HiddenTransform := "translateY(-100%)"
  const ShownTransform := "translateY(0)"

  /** The inline styles of the navbar; "" is a style never written. */
  datatype Style = Style(backdropFilter: string, boxShadow: string, transform: string)

  const Unstyled := Style("", "", "")

  /** What one run of the handler leaves: the navbar's styles and the new `lastScrollTop`. */
  datatype Outcome = Outcome(style: Style, lastScrollTop: nat)

  /** The offset the handler reads: `pageYOffset`, falling back to the root's `scrollTop` when it is 0. */
  function CurrentScroll(pageYOffset: int, scrollTop: int): (current: int)
    ensures pageYOffset != 0 ==> current == pageYOffset
    ensures pageYOffset == 0 ==> current == scrollTop
  {
    if pageYOffset != 0 then pageYOffset else scrollTop
  }

  function ShadowFor(current: int): (shadow: string)
    ensures shadow == ElevatedShadow <==> current > ShadowThreshold
    ensures shadow == ElevatedShadow || shadow == NoShadow
  {
    if current > ShadowThreshold then ElevatedShadow else NoShadow
  }

  /** Hidden only while scrolling strictly down and past the threshold; shown otherwise. */
  function TransformFor(last: int, current: int): (transform: string)
    ensures transform == HiddenTransform <==> current > last && current > HideThreshold
    ensures transform == HiddenTransform || transform == ShownTransform
  {
    if current > last && current > HideThreshold then HiddenTransform else ShownTransform
  }

  /** The remembered offset: the current one, never below zero. */
  function Clamped(current: int): (r: nat)
    ensures r >= current
    ensures r == current || r == 0
  {
    if current <= 0 then 0 else current
  }

  /** One run of `handleNavbarScroll` at offset `current` after `last`. */
  function Handle(last: int, current: int): (o: Outcome)
    ensures o.style.backdropFilter == Blur
    ensures o.style.boxShadow == ElevatedShadow <==> current > ShadowThreshold
    ensures o.style.transform == HiddenTransform <==> current > last && current > HideThreshold
    ensures current > 0 ==> o.lastScrollTop == current
  {
    Outcome(Style(Blur, ShadowFor(current), TransformFor(last, current)), Clamped(current))
  }

  /** Scrolling down from 100 to 250 hides the bar: both tests pass at 250. */
  lemma HideOnScrollDown()
    ensures Handle(100, 250).style.transform == HiddenTransform
  {
  }

  /**
   * A second run at the same offset always shows the navbar: the first
   * run remembered an offset at least as large as the current one.
   */
  lemma SecondRunShows(last: int, current: int)
    ensures Handle(Handle(last, current).lastScrollTop, current).style.transform == ShownTransform
  {
  }

  /** The remembered offset after a sequence of samples, starting from `last`. */
  function Replay(last: nat, offsets: seq<int>): nat
    decreases |offsets|
  {
    if offsets == [] then last else Replay(Handle(last, offsets[0]).lastScrollTop, offsets[1..])
  }

  /** After a non-empty sequence of samples, only the last one is remembered. */
  lemma {:induction false} ReplayRemembersLast(last: nat, offsets: seq<int>)
    requires offsets != []
    ensures Replay(last, offsets) == Clamped(offsets[|offsets| - 1])
    decreases |offsets|
  {
    if |offsets| > 1 {
      ReplayRemembersLast(Handle(last, offsets[0]).lastScrollTop, offsets[1..]);
    }
  }

  /**
   * Over any sequence of samples, sample `i` (not the first) hides the
   * navbar exactly when it is greater than the previous sample and
   * more than 200 down the page.
   */
  lemma HiddenIffRising(last: nat, offsets: seq<int>, i: nat)
    requires 0 < i < |offsets|
    ensures Handle(Replay(last, offsets[..i]), offsets[i]).style.transform == HiddenTransform
            <==> offsets[i] > offsets[i - 1] && offsets[i] > HideThreshold
  {
    ReplayRemembersLast(last, offsets[..i]);
  }

  /**
   * The samples 0, 100, 250, 600 from the top, one run each, every run
   * reading the offset the runs before it remembered: the bar hides at
   * 250 and stays hidden at 600.
   */
  lemma FourSampleScenario()
    ensures var offsets := [0, 100, 250, 600];
            && Handle(Replay(0, offsets[..0]), offsets[0]).style.transform == ShownTransform
            && Handle(Replay(0, offsets[..1]), offsets[1]).style.transform == ShownTransform
            && Handle(Replay(0, offsets[..2]), offsets[2]).style.transform == HiddenTransform
            && Handle(Replay(0, offsets[..3]), offsets[3]).style.transform == HiddenTransform
  {
    var offsets := [0, 100, 250, 600];
    assert offsets[..1] == [0];
    assert offsets[..2] == [0, 100];
    assert offsets[..3] == [0, 100, 250];
    assert [0, 100][1..] == [100] && [0, 100, 250][1..] == [100, 250] && [100, 250][1..] == [250];
    assert Replay(0, [0, 100]) == Replay(0, [100]) == 100;
    assert Replay(0, [0, 100, 250]) == Replay(0, [100, 250]) == Replay(100, [250]) == 250;
  }

  /**
   * Both scroll listeners run the handler once after a burst settles, at
   * the same offset, so the navbar always ends shown whatever the motion.
   */
  function SettledTwice(last: int, current: int): (o: Outcome)
    ensures o.style.transform == ShownTransform
    ensures o.lastScrollTop == Clamped(current)
  {
    var first := Handle(last, current);
    Handle(first.lastScrollTop, current)
  }

  /** With the handler run twice, scrolling down from 100 to 250 leaves the bar shown. */
  lemma DoubleRunNeverHides()
    ensures Handle(100, 250).style.transform == HiddenTransform
    ensures SettledTwice(100, 250).style.transform == ShownTransform
  {
  }
}
