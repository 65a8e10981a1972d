/** setupHeaderScrollState: the header gets its "scrolled" state once the page has
    scrolled past the hero less the header offset. */
module HeaderState {
  import opened Wrappers
  import opened HeaderOffset

  /** `window.pageYOffset || document.documentElement.scrollTop || 0`: a zero
      `pageYOffset` falls back to the root element's `scrollTop`. */
  function ScrollY(pageYOffset: real, scrollTop: real): (y: real)
    ensures pageYOffset != 0.0 ==> y == pageYOffset
    ensures pageYOffset == 0.0 ==> y == scrollTop
  {
    if pageYOffset != 0.0 then pageYOffset else scrollTop
  }

  /** `hero.offsetHeight - (getHeaderOffset() || 0)`. */
  function Threshold(heroHeight: nat, header: Option<HeaderStyle>): (t: int)
    ensures t <= heroHeight
    ensures header.None? || !IsOverlaying(header.value.position) ==> t == heroHeight
    ensures header.Some? && IsOverlaying(header.value.position) ==>
      t == heroHeight - header.value.offsetHeight
  {
    heroHeight - GetHeaderOffset(header)
  }

  /** The predicate `update` applies. */
  predicate IsScrolled(y: real, threshold: int)
  {
    y >= threshold as real
  }

  /** Scrolling further down never clears the state. */
  lemma ScrolledIsMonotone(y1: real, y2: real, threshold: int)
    requires y1 <= y2 && IsScrolled(y1, threshold)
    ensures IsScrolled(y2, threshold)
  {
  }

  /** A taller overlaying header lowers the threshold, so the state is reached sooner. */
  lemma TallerHeaderScrollsSooner(heroHeight: nat, h: HeaderStyle, taller: nat, y: real)
    requires IsOverlaying(h.position) && h.offsetHeight <= taller
    requires IsScrolled(y, Threshold(heroHeight, Some(h)))
    ensures IsScrolled(y, Threshold(heroHeight, Some(h.(offsetHeight := taller))))
  {
  }

  /** The tracker's closure state: the current threshold and whether the header
      carries the class `header--scrolled`. */
  class HeaderTracker {
    var threshold: int
    var scrolled: bool

    /** Setup: compute the threshold and run `update` once. */
    constructor (heroHeight: nat, header: HeaderStyle, pageYOffset: real, scrollTop: real)
      ensures threshold == Threshold(heroHeight, Some(header))
      ensures scrolled == IsScrolled(ScrollY(pageYOffset, scrollTop), threshold)
    {
      threshold := Threshold(heroHeight, Some(header));
      scrolled := ScrollY(pageYOffset, scrollTop) >= Threshold(heroHeight, Some(header)) as real;
    }

    /** `update`, the scroll listener: the new state depends only on the scroll
        position and the threshold, never on the previous state. */
    method Update(pageYOffset: real, scrollTop: real)
      modifies this`scrolled
      ensures scrolled == IsScrolled(ScrollY(pageYOffset, scrollTop), threshold)
    {
      var y := ScrollY(pageYOffset, scrollTop);
      if y >= threshold as real {
        scrolled := true;
      } else {
        scrolled := false;
      }
    }

    /** The resize listener: recompute the threshold from the current layout, then update. */
    method Resize(heroHeight: nat, header: HeaderStyle, pageYOffset: real, scrollTop: real)
      modifies this
      ensures threshold == Threshold(heroHeight, Some(header))
      ensures scrolled == IsScrolled(ScrollY(pageYOffset, scrollTop), threshold)
    {
      threshold := Threshold(heroHeight, Some(header));
      Update(pageYOffset, scrollTop);
    }
  }

  /** Running `update` twice with the same scroll position leaves what one run left. */
  method UpdateIsIdempotent(t: HeaderTracker, pageYOffset: real, scrollTop: real)
    modifies t
    ensures t.threshold == old(t.threshold)
    ensures t.scrolled == IsScrolled(ScrollY(pageYOffset, scrollTop), t.threshold)
  {
    t.Update(pageYOffset, scrollTop);
    var once := t.scrolled;
    t.Update(pageYOffset, scrollTop);
    assert t.scrolled == once;
  }

  /** setupHeaderScrollState: without a header or a hero element nothing is set up. */
  method SetupHeaderScrollState(header: Option<HeaderStyle>, heroHeight: Option<nat>,
                                pageYOffset: real, scrollTop: real)
    returns (t: HeaderTracker?)
    ensures t == null <==> header.None? || heroHeight.None?
    ensures t != null ==> fresh(t) && t.threshold == Threshold(heroHeight.value, header)
    ensures t != null ==> t.scrolled == IsScrolled(ScrollY(pageYOffset, scrollTop), t.threshold)
  {
    if header.None? || heroHeight.None? {
      return null;
    }
    t := new HeaderTracker(heroHeight.value, header.value, pageYOffset, scrollTop);
  }
}
