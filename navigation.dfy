/**
 * `initNavigation`: the mobile-menu flags, the menu-closing click on a link,
 * and the scroll handler that picks the current section, marks the matching
 * link active and sets the navbar's `scrolled` flag. Offsets are integers.
 */
module Navigation {
  import opened Options

  /** A `<section>` of the page: its `id` attribute (null when absent) and its
      `offsetTop`. */
  datatype Section = Section(id: Option<string>, top: int)

  /** How far ahead of a section's top the handler already counts it as reached. */
  const Lookahead := 200
  /** Scroll offset past which the navbar is `scrolled`. */
  const ScrolledThreshold := 100

  predicate Reached(s: Section, scrollY: int) {
    scrollY >= s.top - Lookahead
  }

  /** Index of the last reached section in document order, or -1 when no
      section is reached. */
  function LastReached(sections: seq<Section>, scrollY: int): (k: int)
    ensures -1 <= k < |sections|
    ensures k >= 0 ==> Reached(sections[k], scrollY)
    ensures forall j :: k < j < |sections| ==> !Reached(sections[j], scrollY)
  {
    if |sections| == 0 then -1
    else if Reached(sections[|sections| - 1], scrollY) then |sections| - 1
    else LastReached(sections[..|sections| - 1], scrollY)
  }

  /** The value of `current` after the loop over the sections: "" when no
      section is reached, else the id of the last reached one. */
  function Current(sections: seq<Section>, scrollY: int): Option<string> {
    var k := LastReached(sections, scrollY);
    if k < 0 then Some("") else sections[k].id
  }

  /** The two cases of `Current`, stated from the sections alone. */
  lemma CurrentCases(sections: seq<Section>, scrollY: int)
    ensures (forall j :: 0 <= j < |sections| ==> !Reached(sections[j], scrollY)) ==>
      Current(sections, scrollY) == Some("")
    ensures forall k ::
      (0 <= k < |sections| && Reached(sections[k], scrollY) &&
       (forall j :: k < j < |sections| ==> !Reached(sections[j], scrollY)))
      ==> Current(sections, scrollY) == sections[k].id
  {
  }

  /** `href.slice(1)`: the href without its first character. */
  function SliceFromOne(href: string): (r: string)
    ensures |href| > 0 ==> [href[0]] + r == href
    ensures |href| == 0 ==> r == ""
  {
    if |href| == 0 then "" else href[1..]
  }

  /** The loop over the sections: each reached section overwrites `current`. */
  method FindCurrent(sections: seq<Section>, scrollY: int) returns (current: Option<string>)
    ensures current == Current(sections, scrollY)
  {
    current := Some("");
    for i := 0 to |sections|
      invariant current == Current(sections[..i], scrollY)
    {
      assert sections[..i + 1][..i] == sections[..i];
      if Reached(sections[i], scrollY) {
        current := sections[i].id;
      }
    }
    assert sections[..|sections|] == sections;
  }

  class Navbar {
    var hamburgerActive: bool
    var menuActive: bool
    var scrolled: bool
    /** The `href` of each `.nav-link`, in document order. */
    const hrefs: seq<string>
    /** The `active` class of each `.nav-link`. */
    const linkActive: array<bool>

    ghost predicate Valid()
      reads this
    {
      linkActive.Length == |hrefs|
    }

    ghost predicate MenuInStep()
      reads this
    {
      hamburgerActive == menuActive
    }

    constructor (links: seq<string>)
      ensures Valid() && fresh(linkActive)
      ensures hrefs == links
      ensures !hamburgerActive && !menuActive && !scrolled
      ensures forall k :: 0 <= k < linkActive.Length ==> !linkActive[k]
    {
      hrefs := links;
      linkActive := new bool[|links|](_ => false);
      hamburgerActive, menuActive, scrolled := false, false, false;
    }

    /** Click on the hamburger: both `active` classes flip. */
    method ToggleMenu()
      requires Valid()
      modifies this
      ensures Valid()
      ensures hamburgerActive == !old(hamburgerActive) && menuActive == !old(menuActive)
      ensures old(MenuInStep()) ==> MenuInStep()
      ensures scrolled == old(scrolled)
    {
      hamburgerActive := !hamburgerActive;
      menuActive := !menuActive;
    }

    /** Click on a nav link: both `active` classes removed. */
    method CloseMenu()
      requires Valid()
      modifies this
      ensures Valid()
      ensures !hamburgerActive && !menuActive && MenuInStep()
      ensures scrolled == old(scrolled)
    {
      hamburgerActive := false;
      menuActive := false;
    }

    /** The scroll handler. `pageYOffset` and `scrollY` are the same value. */
    method OnScroll(sections: seq<Section>, scrollY: int)
      requires Valid()
      modifies this, linkActive
      ensures Valid()
      ensures forall k :: 0 <= k < linkActive.Length ==>
        (linkActive[k] <==> Some(SliceFromOne(hrefs[k])) == Current(sections, scrollY))
      ensures scrolled == (scrollY > ScrolledThreshold)
      ensures hamburgerActive == old(hamburgerActive) && menuActive == old(menuActive)
    {
      var current := FindCurrent(sections, scrollY);
      for k := 0 to linkActive.Length
        modifies linkActive
        invariant forall j :: 0 <= j < k ==>
          (linkActive[j] <==> Some(SliceFromOne(hrefs[j])) == current)
      {
        linkActive[k] := false;
        if Some(SliceFromOne(hrefs[k])) == current {
          linkActive[k] := true;
        }
      }
      if scrollY > ScrolledThreshold {
        scrolled := true;
      } else {
        scrolled := false;
      }
    }
  }

  /** Toggling twice restores both flags. */
  method ToggleTwice(nav: Navbar)
    requires nav.Valid()
    modifies nav
    ensures nav.Valid()
    ensures nav.hamburgerActive == old(nav.hamburgerActive) && nav.menuActive == old(nav.menuActive)
  {
    nav.ToggleMenu();
    nav.ToggleMenu();
  }

  /** Scrolled to 450 on a page whose sections start at 0, 400 and 900: the
      first two are reached, so only the link to "#about" is active. */
  method ScrollScenario()
  {
    var nav := new Navbar(["#home", "#about", "#projects"]);
    var sections := [Section(Some("home"), 0), Section(Some("about"), 400), Section(Some("projects"), 900)];
    nav.OnScroll(sections, 450);
    assert Current(sections, 450) == Some("about");
    assert !nav.linkActive[0] && nav.linkActive[1] && !nav.linkActive[2];
    assert nav.scrolled;
  }
}
