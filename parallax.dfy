/**
 * The hero parallax: a scroll handler that requests at most one animation
 * frame at a time (the `ticking` flag), and the frame callback that clamps
 * the scroll offset to the hero's height. The frame is a pending count that
 * the environment runs by calling `RunFrame`; the background position itself,
 * 15% of the clamped offset, is not modelled.
 */
module HeroParallax {
  import opened Options

  /** `Math.min(scrolled, hero.offsetHeight)`. */
  function Clamp(scrolled: int, heroHeight: int): (limit: int)
    ensures limit <= scrolled && limit <= heroHeight
    ensures limit == scrolled || limit == heroHeight
  {
    if scrolled <= heroHeight then scrolled else heroHeight
  }

  class Throttle {
    var ticking: bool
    /** Animation frames requested and not yet run. */
    var pendingFrames: nat
    /** The clamped offset the last frame applied, if any frame has run. */
    var appliedLimit: Option<int>

    /** At most one frame is pending, and `ticking` says whether one is. */
    ghost predicate Valid()
      reads this
    {
      pendingFrames == if ticking then 1 else 0
    }

    constructor ()
      ensures Valid() && !ticking && appliedLimit == None
    {
      ticking := false;
      pendingFrames := 0;
      appliedLimit := None;
    }

    /** `onScroll`: request a frame unless one is pending. */
    method OnScroll()
      requires Valid()
      modifies this
      ensures Valid() && ticking && pendingFrames == 1
      ensures old(ticking) ==> pendingFrames == old(pendingFrames)
      ensures appliedLimit == old(appliedLimit)
    {
      if !ticking {
        pendingFrames := pendingFrames + 1;
        ticking := true;
      }
    }

    /** The frame callback; `scrolled` is `window.scrollY` at that moment. */
    method RunFrame(scrolled: int, heroHeight: int)
      requires Valid() && pendingFrames > 0
      modifies this
      ensures Valid() && !ticking && pendingFrames == 0
      ensures appliedLimit == Some(Clamp(scrolled, heroHeight))
    {
      appliedLimit := Some(Clamp(scrolled, heroHeight));
      ticking := false;
      pendingFrames := pendingFrames - 1;
    }
  }

  /** A burst of scroll events requests a single frame. */
  method BurstScenario()
  {
    var p := new Throttle();
    p.OnScroll();
    p.OnScroll();
    p.OnScroll();
    assert p.pendingFrames == 1;
    p.RunFrame(900, 600);
    assert p.appliedLimit == Some(600) && !p.ticking;
  }
}
