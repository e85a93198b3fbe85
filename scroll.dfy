/**
 * The scroll tracker's pure parts: the scroll-to-top threshold and the search
 * for the section under the probe point `scrollY + 100`.
 */
module Scroll {
  import opened Wrappers

  /** The page's four sections, identified by their element ids. */
  datatype Section = About | Skills | Projects | Contact

  /** The order in which the sections are tested. */
  const Order: seq<Section> := [About, Skills, Projects, Contact]

  /** The scroll offset above which the scroll-to-top button shows. */
  const ScrollTopThreshold := 400

  /** How far below the scroll offset the probe point lies. */
  const ProbeOffset := 100

  /** An element's `offsetTop` and `offsetHeight`. */
  datatype Box = Box(offsetTop: int, offsetHeight: int)

  /** The elements found by `document.getElementById`: a section missing from
      the map has no element on the page. */
  type Layout = map<Section, Box>

  /** The half-open extent `[offsetTop, offsetTop + offsetHeight)` contains `y`. */
  predicate Contains(b: Box, y: int) {
    b.offsetTop <= y < b.offsetTop + b.offsetHeight
  }

  /** Section `s` has an element and its extent contains `y`. */
  predicate Hits(layout: Layout, s: Section, y: int) {
    s in layout && Contains(layout[s], y)
  }

  /** The index of the first of `sections` that the point `y` hits, or `None`
      when it hits none of them. */
  function FirstHit(sections: seq<Section>, layout: Layout, y: int): (r: Option<nat>)
    ensures r.Some? ==> r.value < |sections| && Hits(layout, sections[r.value], y)
    ensures r.Some? ==> forall j | 0 <= j < r.value :: !Hits(layout, sections[j], y)
    ensures r.None? <==> forall j | 0 <= j < |sections| :: !Hits(layout, sections[j], y)
  {
    if sections == [] then None
    else if Hits(layout, sections[0], y) then Some(0)
    else match FirstHit(sections[1..], layout, y)
      case None => None
      case Some(i) => Some(i + 1)
  }

  /** A hit with no earlier hit is the first hit. */
  lemma FirstHitUnique(sections: seq<Section>, layout: Layout, y: int, k: nat)
    requires k < |sections| && Hits(layout, sections[k], y)
    requires forall j | 0 <= j < k :: !Hits(layout, sections[j], y)
    ensures FirstHit(sections, layout, y) == Some(k)
  {
    var r := FirstHit(sections, layout, y);
    assert r.Some? && r.value <= k;
    assert !(r.value < k);
  }

  /** The active section after a scroll to `scrollY`: the first section in
      order under the probe point, or `current` when there is none. */
  function NextActive(current: Section, layout: Layout, scrollY: int): (r: Section)
    ensures (exists k | 0 <= k < |Order| :: Hits(layout, Order[k], scrollY + ProbeOffset)) ==>
      exists k | 0 <= k < |Order| :: Order[k] == r && Hits(layout, r, scrollY + ProbeOffset) &&
        forall j | 0 <= j < k :: !Hits(layout, Order[j], scrollY + ProbeOffset)
    ensures (forall k | 0 <= k < |Order| :: !Hits(layout, Order[k], scrollY + ProbeOffset)) ==>
      r == current
  {
    match FirstHit(Order, layout, scrollY + ProbeOffset)
    case Some(k) => Order[k]
    case None => current
  }

  /** No point lies in the extents of two different sections. */
  predicate NonOverlapping(layout: Layout) {
    forall a, b | a in layout && b in layout && a != b ::
      layout[a].offsetHeight <= 0 || layout[b].offsetHeight <= 0 ||
      layout[a].offsetTop + layout[a].offsetHeight <= layout[b].offsetTop ||
      layout[b].offsetTop + layout[b].offsetHeight <= layout[a].offsetTop
  }

  /** When the sections do not overlap, the order of the search does not
      matter: the active section becomes the one section whose extent holds
      the probe point (the probe inside "skills" and no other gives "skills"). */
  lemma NonOverlappingPicksContainingSection(current: Section, layout: Layout, scrollY: int, s: Section)
    requires NonOverlapping(layout)
    requires Hits(layout, s, scrollY + ProbeOffset)
    ensures NextActive(current, layout, scrollY) == s
  {
    var y := scrollY + ProbeOffset;
    var k := if s == About then 0 else if s == Skills then 1 else if s == Projects then 2 else 3;
    assert Order[k] == s;
    forall j | 0 <= j < k ensures !Hits(layout, Order[j], y) {
      assert Order[j] != s;
    }
    FirstHitUnique(Order, layout, y, k);
  }

  /** When the probe point lies in one section's extent and in no other's,
      that section becomes active. */
  lemma OnlyHitSectionBecomesActive(current: Section, layout: Layout, scrollY: int, k: nat)
    requires k < |Order| && Hits(layout, Order[k], scrollY + ProbeOffset)
    requires forall j | 0 <= j < |Order| && j != k :: !Hits(layout, Order[j], scrollY + ProbeOffset)
    ensures NextActive(current, layout, scrollY) == Order[k]
  {
    FirstHitUnique(Order, layout, scrollY + ProbeOffset, k);
  }
}
