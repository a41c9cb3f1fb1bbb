/**
 * Scroll-driven highlighting of the navigation (script.js:96-123).
 *
 * The page's `section` elements become a sequence of sections in
 * document order, each with its id ("" for a section without one), its
 * top offset and its height. The page's `a` elements become a sequence
 * of anchors in document order, each with its href, whether it carries
 * the `nav-link` class, and whether it carries the `active` class.
 */
module ActiveNav {
  import opened Wrappers

  /** The distance below the top of the viewport at which a section counts as current. */
  const HeaderOffset := 100

  datatype Section = Section(id: string, top: int, height: int)

  datatype Anchor = Anchor(href: string, isNavLink: bool, active: bool)

  /** The half-open range test of one section. */
  predicate Covers(s: Section, pos: int)
    ensures Covers(s, pos) ==> s.height > 0 && s.top <= pos
  {
    s.top <= pos < s.top + s.height
  }

  /**
   * The id the scan settles on: the last section in document order
   * whose range holds `pos`, or "" when none does.
   */
  function LastCovering(sections: seq<Section>, pos: int): (id: string)
    ensures id == "" || exists k | 0 <= k < |sections| :: Covers(sections[k], pos) && id == sections[k].id
    decreases |sections|
  {
    if sections == [] then ""
    else if Covers(sections[|sections| - 1], pos) then sections[|sections| - 1].id
    else LastCovering(sections[..|sections| - 1], pos)
  }

  /** A covering section with no covering section after it is the one chosen. */
  lemma {:induction false} LastCoveringIsLast(sections: seq<Section>, pos: int, k: nat)
    requires k < |sections| && Covers(sections[k], pos)
    requires forall j | k < j < |sections| :: !Covers(sections[j], pos)
    ensures LastCovering(sections, pos) == sections[k].id
    decreases |sections|
  {
    if k < |sections| - 1 {
      LastCoveringIsLast(sections[..|sections| - 1], pos, k);
    }
  }

  /** When no section covers `pos`, the scan yields "". */
  lemma {:induction false} NoneCovering(sections: seq<Section>, pos: int)
    requires forall k | 0 <= k < |sections| :: !Covers(sections[k], pos)
    ensures LastCovering(sections, pos) == ""
    decreases |sections|
  {
    if sections != [] {
      NoneCovering(sections[..|sections| - 1], pos);
    }
  }

  /**
   * Sections laid out one after another without overlap: then at most
   * one covers any position, and that one is chosen.
   */
  predicate Stacked(sections: seq<Section>)
  {
    forall i, j | 0 <= i < j < |sections| :: sections[i].top + sections[i].height <= sections[j].top
  }

  lemma StackedSelectsCovering(sections: seq<Section>, pos: int, k: nat)
    requires Stacked(sections)
    requires k < |sections| && Covers(sections[k], pos)
    ensures LastCovering(sections, pos) == sections[k].id
  {
    LastCoveringIsLast(sections, pos, k);
  }

  /**
   * The scan of `updateActiveNav`: every section is tested in document
   * order and a covering one overwrites the accumulator.
   */
  method SelectActive(sections: seq<Section>, scrollY: int) returns (active: string)
    ensures active == LastCovering(sections, scrollY + HeaderOffset)
  {
    var scrollPos := scrollY + HeaderOffset;
    active := "";
    for i := 0 to |sections|
      invariant active == LastCovering(sections[..i], scrollPos)
    {
      var section := sections[i];
      if scrollPos >= section.top && scrollPos < section.top + section.height {
        active := section.id;
      }
      assert sections[..i + 1][..i] == sections[..i];
    }
    assert sections[..|sections|] == sections;
  }

  /** The first anchor in document order whose href is exactly `href`, if any. */
  function FirstWithHref(anchors: seq<Anchor>, href: string): (k: Option<nat>)
    ensures k.Some? ==> k.value < |anchors| && anchors[k.value].href == href
    ensures k.Some? ==> forall j | 0 <= j < k.value :: anchors[j].href != href
    ensures k.None? ==> forall j | 0 <= j < |anchors| :: anchors[j].href != href
    decreases |anchors|
  {
    if anchors == [] then None
    else if anchors[0].href == href then Some(0)
    else match FirstWithHref(anchors[1..], href)
      case None => None
      case Some(k) => Some(k + 1)
  }

  /** The anchor the highlight goes to: none for an empty id, else the first `#id` anchor. */
  function Target(anchors: seq<Anchor>, active: string): (k: Option<nat>)
    ensures k.Some? ==> active != "" && k.value < |anchors| && anchors[k.value].href == "#" + active
    ensures k.Some? ==> forall j | 0 <= j < k.value :: anchors[j].href != "#" + active
    ensures k.None? ==> active == "" || forall j | 0 <= j < |anchors| :: anchors[j].href != "#" + active
  {
    if active == "" then None else FirstWithHref(anchors, "#" + active)
  }

  /** Every `nav-link` loses `active`; other anchors keep theirs. */
  function Cleared(anchors: seq<Anchor>): (r: seq<Anchor>)
    ensures |r| == |anchors|
    ensures forall i | 0 <= i < |r| :: r[i].href == anchors[i].href && r[i].isNavLink == anchors[i].isNavLink
    ensures forall i | 0 <= i < |r| && r[i].isNavLink :: !r[i].active
    ensures forall i | 0 <= i < |r| && !anchors[i].isNavLink :: r[i] == anchors[i]
  {
    seq(|anchors|, i requires 0 <= i < |anchors| =>
      anchors[i].(active := anchors[i].active && !anchors[i].isNavLink))
  }

  /** The anchors after the clear-then-mark step for the chosen id. */
  function Highlighted(anchors: seq<Anchor>, active: string): (r: seq<Anchor>)
    ensures |r| == |anchors|
    ensures forall i | 0 <= i < |r| ::
              r[i].href == anchors[i].href && r[i].isNavLink == anchors[i].isNavLink
    ensures forall i | 0 <= i < |r| ::
              r[i].active <==> (Target(anchors, active) == Some(i) || (anchors[i].active && !anchors[i].isNavLink))
  {
    var cleared := Cleared(anchors);
    match Target(anchors, active)
    case None => cleared
    case Some(k) => cleared[k := cleared[k].(active := true)]
  }

  /**
   * A nav link ends up active exactly when it is the target, so at most
   * one nav link is active afterwards.
   */
  lemma AtMostOneNavLinkActive(anchors: seq<Anchor>, active: string, i: nat, j: nat)
    requires i < |anchors| && j < |anchors|
    requires Highlighted(anchors, active)[i].isNavLink && Highlighted(anchors, active)[i].active
    requires Highlighted(anchors, active)[j].isNavLink && Highlighted(anchors, active)[j].active
    ensures i == j
  {
  }

  /**
   * When the scan finds nothing, or no anchor points at the chosen id,
   * every nav link ends up inactive: the previous highlight is not kept.
   */
  lemma NoTargetClearsNavLinks(anchors: seq<Anchor>, active: string)
    requires Target(anchors, active).None?
    ensures forall i | 0 <= i < |anchors| && anchors[i].isNavLink :: !Highlighted(anchors, active)[i].active
  {
  }

  /** Anchors other than nav links and the target are left as they were. */
  lemma OtherAnchorsUnchanged(anchors: seq<Anchor>, active: string, i: nat)
    requires i < |anchors| && !anchors[i].isNavLink && Target(anchors, active) != Some(i)
    ensures Highlighted(anchors, active)[i] == anchors[i]
  {
  }

  /** Applying the update twice with the same scroll position changes nothing more. */
  lemma HighlightedIdempotent(anchors: seq<Anchor>, active: string)
    ensures Highlighted(Highlighted(anchors, active), active) == Highlighted(anchors, active)
  {
  }

  /** The two-section layout with the page scrolled to 550 highlights the second. */
  lemma TwoSectionScenario()
    ensures LastCovering([Section("a", 0, 500), Section("b", 500, 500)], 550 + HeaderOffset) == "b"
  {
  }
}
