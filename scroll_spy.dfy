/** setupScrollSpy: the navigation entry of the section under the line just below
    the header is marked active; scroll and resize events coalesce into at most one
    pending recomputation per animation frame. */
module ScrollSpy {
  import opened Wrappers

  /** A `.header__nav-item`: the `href` of its first `a[href^="#"]` link, None when it
      has no such link or the link has no `href`. */
  datatype NavItem = NavItem(link: Option<string>)

  /** An entry: the link's href (also the selector of its section) and the position of
      its nav item in the navigation. */
  datatype Entry = Entry(id: string, item: nat)

  /** The top and bottom edges of a bounding rectangle, relative to the viewport. */
  datatype Rect = Rect(top: real, bottom: real)

  /** A nav item takes part when its link is neither empty nor "#" and a section
      matches it (`sections` holds the selectors that find an element). */
  predicate Qualifies(item: NavItem, sections: set<string>)
  {
    item.link.Some? && item.link.value != "" && item.link.value != "#" && item.link.value in sections
  }

  /** The entries built from the nav items at positions `i` and later. */
  function EntriesFrom(nav: seq<NavItem>, sections: set<string>, i: nat): (r: seq<Entry>)
    requires i <= |nav|
    ensures forall k :: 0 <= k < |r| ==>
      i <= r[k].item < |nav| && Qualifies(nav[r[k].item], sections) && r[k].id == nav[r[k].item].link.value
    ensures forall k, l :: 0 <= k < l < |r| ==> r[k].item < r[l].item
    decreases |nav| - i
  {
    if i == |nav| then []
    else if Qualifies(nav[i], sections) then [Entry(nav[i].link.value, i)] + EntriesFrom(nav, sections, i + 1)
    else EntriesFrom(nav, sections, i + 1)
  }

  /** No qualifying nav item at position `i` or later is dropped. */
  lemma {:induction false} EntriesFromComplete(nav: seq<NavItem>, sections: set<string>, i: nat, j: nat)
    requires i <= j < |nav| && Qualifies(nav[j], sections)
    ensures exists k :: 0 <= k < |EntriesFrom(nav, sections, i)| && EntriesFrom(nav, sections, i)[k].item == j
    decreases |nav| - i
  {
    var r := EntriesFrom(nav, sections, i);
    if j == i {
      assert r[0].item == j;
    } else {
      var rest := EntriesFrom(nav, sections, i + 1);
      EntriesFromComplete(nav, sections, i + 1, j);
      var k :| 0 <= k < |rest| && rest[k].item == j;
      if Qualifies(nav[i], sections) {
        assert r[k + 1] == rest[k];
      } else {
        assert r[k] == rest[k];
      }
    }
  }

  /** `navItems.map(...).filter(Boolean)`: the qualifying nav items, each once, in
      navigation order, and no others. */
  function Entries(nav: seq<NavItem>, sections: set<string>): (r: seq<Entry>)
    ensures forall k :: 0 <= k < |r| ==>
      r[k].item < |nav| && Qualifies(nav[r[k].item], sections) && r[k].id == nav[r[k].item].link.value
    ensures forall k, l :: 0 <= k < l < |r| ==> r[k].item < r[l].item
    ensures forall j :: 0 <= j < |nav| && Qualifies(nav[j], sections) ==>
      exists k :: 0 <= k < |r| && r[k].item == j
  {
    var r := EntriesFrom(nav, sections, 0);
    assert forall j :: 0 <= j < |nav| && Qualifies(nav[j], sections) ==>
      exists k :: 0 <= k < |r| && r[k].item == j
    by {
      forall j | 0 <= j < |nav| && Qualifies(nav[j], sections)
        ensures exists k :: 0 <= k < |r| && r[k].item == j
      {
        EntriesFromComplete(nav, sections, 0, j);
      }
    }
    r
  }

  /** No entry's id is "#" or empty, and every one names an existing section. */
  lemma EntryIdsNameSections(nav: seq<NavItem>, sections: set<string>, k: nat)
    requires k < |Entries(nav, sections)|
    ensures var id := Entries(nav, sections)[k].id; id != "" && id != "#" && id in sections
  {
  }

  /** getAnchorY: one pixel below the header's bottom edge, clamped at 0; 1 without a header. */
  function AnchorY(headerBottom: Option<real>): (y: real)
    ensures y >= 0.0
    ensures headerBottom.None? ==> y == 1.0
    ensures headerBottom.Some? ==> y > headerBottom.value
    ensures headerBottom.Some? && headerBottom.value >= -1.0 ==> y == headerBottom.value + 1.0
    ensures headerBottom.Some? && headerBottom.value < -1.0 ==> y == 0.0
  {
    match headerBottom
    case None => 1.0
    case Some(b) => if b + 1.0 > 0.0 then b + 1.0 else 0.0
  }

  /** The test `rect.top <= anchorY && rect.bottom > anchorY`. */
  predicate Contains(r: Rect, y: real)
  {
    r.top <= y && r.bottom > y
  }

  /** The distance from the anchor line to a section that does not contain it: to the
      top edge when the line is above the section, to the bottom edge otherwise. */
  function Distance(r: Rect, y: real): (d: real)
    ensures !Contains(r, y) ==> d >= 0.0
    ensures y < r.top ==> d == r.top - y
    ensures r.top <= y ==> d == y - r.bottom
  {
    if y < r.top then r.top - y else y - r.bottom
  }

  /** The section `updateActive` selects: the first one that contains the anchor line
      or, when none does, the earliest among those nearest to it. */
  ghost predicate IsWinner(rects: seq<Rect>, y: real, k: nat)
  {
    k < |rects| &&
    if exists i :: 0 <= i < |rects| && Contains(rects[i], y) then
      Contains(rects[k], y) && forall j :: 0 <= j < k ==> !Contains(rects[j], y)
    else
      (forall j :: 0 <= j < |rects| ==> Distance(rects[k], y) <= Distance(rects[j], y)) &&
      (forall j :: 0 <= j < k ==> Distance(rects[k], y) < Distance(rects[j], y))
  }

  /** The first loop of `updateActive`: stop at the first section that contains the
      line; otherwise keep the earliest strictly smaller distance seen so far. None
      stands for the initial `Infinity`. */
  method SelectSection(rects: seq<Rect>, y: real) returns (k: nat)
    requires |rects| > 0
    ensures IsWinner(rects, y, k)
  {
    k := 0;
    var best: Option<real> := None;
    var i := 0;
    while i < |rects|
      invariant 0 <= i <= |rects| && k < |rects|
      invariant forall j :: 0 <= j < i ==> !Contains(rects[j], y)
      invariant best.None? <==> i == 0
      invariant best.Some? ==> k < i && best.value == Distance(rects[k], y)
      invariant forall j :: 0 <= j < i ==> Distance(rects[k], y) <= Distance(rects[j], y)
      invariant forall j :: 0 <= j < k ==> Distance(rects[k], y) < Distance(rects[j], y)
    {
      if Contains(rects[i], y) {
        k := i;
        return;
      }
      var d := Distance(rects[i], y);
      if best.None? || d < best.value {
        best := Some(d);
        k := i;
      }
      i := i + 1;
    }
  }

  /** The selection rule picks exactly one section. */
  lemma WinnerIsUnique(rects: seq<Rect>, y: real, k1: nat, k2: nat)
    requires IsWinner(rects, y, k1) && IsWinner(rects, y, k2)
    ensures k1 == k2
  {
  }

  /** Three sections, the anchor line in the gap between the first two, nearer the
      second: the second is selected, and nothing else is. */
  lemma {:induction false} GapPicksNearerSection(k: nat)
    requires IsWinner([Rect(0.0, 100.0), Rect(200.0, 300.0), Rect(400.0, 500.0)], 180.0, k)
    ensures k == 1
  {
    var rects := [Rect(0.0, 100.0), Rect(200.0, 300.0), Rect(400.0, 500.0)];
    assert !Contains(rects[0], 180.0) && !Contains(rects[1], 180.0) && !Contains(rects[2], 180.0);
    assert IsWinner(rects, 180.0, 1);
    WinnerIsUnique(rects, 180.0, k, 1);
  }

  /** Two overlapping sections that both contain the anchor line: the earlier one wins. */
  lemma {:induction false} OverlapPicksEarlierSection(k: nat)
    requires IsWinner([Rect(0.0, 300.0), Rect(100.0, 200.0)], 150.0, k)
    ensures k == 0
  {
    var rects := [Rect(0.0, 300.0), Rect(100.0, 200.0)];
    assert Contains(rects[0], 150.0);
    assert IsWinner(rects, 150.0, 0);
    WinnerIsUnique(rects, 150.0, k, 0);
  }

  /** Every entry's section has a rectangle in the current layout. */
  predicate LaysOut(entries: seq<Entry>, layout: map<string, Rect>)
  {
    forall i :: 0 <= i < |entries| ==> entries[i].id in layout
  }

  /** `entry.section.getBoundingClientRect()` for each entry, in order. */
  function RectsOf(entries: seq<Entry>, layout: map<string, Rect>): (r: seq<Rect>)
    requires LaysOut(entries, layout)
    ensures |r| == |entries|
    ensures forall i :: 0 <= i < |r| ==> r[i] == layout[entries[i].id]
  {
    seq(|entries|, i requires 0 <= i < |entries| && LaysOut(entries, layout) => layout[entries[i].id])
  }

  /** The second loop of `updateActive`: an entry is active exactly when its id is the
      selected entry's id. */
  ghost predicate MarkedFor(entries: seq<Entry>, active: seq<bool>, k: nat)
  {
    k < |entries| && |active| == |entries| &&
    forall i :: 0 <= i < |entries| ==> active[i] == (entries[i].id == entries[k].id)
  }

  predicate DistinctIds(entries: seq<Entry>)
  {
    forall i, j :: 0 <= i < j < |entries| ==> entries[i].id != entries[j].id
  }

  /** The number of active entries. */
  function CountActive(active: seq<bool>): (n: nat)
    ensures n <= |active|
  {
    if active == [] then 0 else (if active[0] then 1 else 0) + CountActive(active[1..])
  }

  lemma {:induction false} NoneActive(active: seq<bool>)
    requires forall i :: 0 <= i < |active| ==> !active[i]
    ensures CountActive(active) == 0
  {
    if active != [] {
      NoneActive(active[1..]);
    }
  }

  lemma {:induction false} OnlyOneActive(active: seq<bool>, k: nat)
    requires k < |active| && active[k]
    requires forall i :: 0 <= i < |active| && i != k ==> !active[i]
    ensures CountActive(active) == 1
  {
    if k == 0 {
      NoneActive(active[1..]);
    } else {
      OnlyOneActive(active[1..], k - 1);
    }
  }

  /** With distinct hrefs exactly one entry ends up active: the selected one. */
  lemma {:induction false} ExactlyOneActive(entries: seq<Entry>, active: seq<bool>, k: nat)
    requires DistinctIds(entries) && MarkedFor(entries, active, k)
    ensures active[k]
    ensures CountActive(active) == 1
  {
    forall i | 0 <= i < |active| && i != k
      ensures !active[i]
    {
      if i < k {
        assert entries[i].id != entries[k].id;
      } else {
        assert entries[k].id != entries[i].id;
      }
    }
    OnlyOneActive(active, k);
  }

  /** Marking compares ids, so two nav entries with the same href are active together. */
  lemma SameHrefBothActive(entries: seq<Entry>, active: seq<bool>, k: nat, i: nat)
    requires MarkedFor(entries, active, k) && i < |entries| && entries[i].id == entries[k].id
    ensures active[i] && active[k]
  {
  }

  /** The scroll spy's state: its entries (fixed at setup), whether the page has a
      header, the active flag of each entry's nav item, the `ticking` flag, and the
      number of frame callbacks it has queued with the browser. */
  class Spy {
    const entries: seq<Entry>
    const hasHeader: bool
    var active: seq<bool>
    var ticking: bool
    ghost var pendingFrames: nat

    /** At most one frame callback is ever pending, and one is pending exactly while
        `ticking` is set. */
    ghost predicate Valid()
      reads this
    {
      |entries| > 0 && |active| == |entries| &&
      pendingFrames <= 1 && (ticking <==> pendingFrames == 1)
    }

    /** The classes the markup starts with are overwritten by the update that setup
        runs at once, so they start here as all inactive. */
    constructor (entries: seq<Entry>, hasHeader: bool)
      requires |entries| > 0
      ensures this.entries == entries && this.hasHeader == hasHeader
      ensures Valid() && !ticking && pendingFrames == 0
    {
      this.entries := entries;
      this.hasHeader := hasHeader;
      active := seq(|entries|, _ => false);
      ticking := false;
      pendingFrames := 0;
    }

    function HeaderBottom(headerBottom: real): Option<real>
      reads this
    {
      if hasHeader then Some(headerBottom) else None
    }

    /** updateActive: select the section under the anchor line and mark its entry. */
    method UpdateActive(headerBottom: real, layout: map<string, Rect>) returns (ghost k: nat)
      requires Valid() && LaysOut(entries, layout)
      modifies this`active
      ensures Valid()
      ensures IsWinner(RectsOf(entries, layout), AnchorY(HeaderBottom(headerBottom)), k)
      ensures MarkedFor(entries, active, k)
    {
      var anchorY := AnchorY(HeaderBottom(headerBottom));
      var rects := RectsOf(entries, layout);
      var current := SelectSection(rects, anchorY);
      var i := 0;
      while i < |entries|
        invariant 0 <= i <= |entries| && |active| == |entries|
        invariant forall j :: 0 <= j < i ==> active[j] == (entries[j].id == entries[current].id)
      {
        active := active[i := entries[i].id == entries[current].id];
        i := i + 1;
      }
      k := current;
    }

    /** onScroll: schedule a frame callback unless one is already pending. */
    method OnScroll() returns (scheduled: bool)
      requires Valid()
      modifies this`ticking, this`pendingFrames
      ensures Valid() && ticking && pendingFrames == 1
      ensures scheduled == !old(ticking)
      ensures !scheduled ==> pendingFrames == old(pendingFrames)
    {
      scheduled := !ticking;
      if !ticking {
        ticking := true;
        pendingFrames := pendingFrames + 1;
      }
    }

    /** The frame callback `onScroll` scheduled: update, then clear `ticking`. The
        browser runs it only once it has been scheduled. */
    method OnFrame(headerBottom: real, layout: map<string, Rect>) returns (ghost k: nat)
      requires Valid() && ticking && LaysOut(entries, layout)
      modifies this`active, this`ticking, this`pendingFrames
      ensures Valid() && !ticking && pendingFrames == 0
      ensures IsWinner(RectsOf(entries, layout), AnchorY(HeaderBottom(headerBottom)), k)
      ensures MarkedFor(entries, active, k)
    {
      k := UpdateActive(headerBottom, layout);
      ticking := false;
      pendingFrames := pendingFrames - 1;
    }
  }

  /** A storm of scroll events before the next frame queues at most one callback:
      one when there was any event, none otherwise. The active flags are untouched. */
  method ScrollStorm(spy: Spy, events: nat)
    requires spy.Valid() && !spy.ticking
    modifies spy
    ensures spy.Valid()
    ensures spy.ticking <==> events > 0
    ensures spy.pendingFrames == (if events > 0 then 1 else 0)
    ensures spy.active == old(spy.active)
  {
    var n := 0;
    while n < events
      invariant n <= events
      invariant spy.Valid() && (spy.ticking <==> n > 0)
      invariant spy.active == old(spy.active)
    {
      var _ := spy.OnScroll();
      n := n + 1;
    }
  }

  /** setupScrollSpy: nothing without qualifying nav items; otherwise build the
      entries, run updateActive at once, and wait for scroll and resize events. */
  method SetupScrollSpy(nav: seq<NavItem>, sections: set<string>, hasHeader: bool,
                        headerBottom: real, layout: map<string, Rect>)
    returns (spy: Spy?)
    requires sections <= layout.Keys
    ensures spy == null <==> |Entries(nav, sections)| == 0
    ensures spy != null ==> fresh(spy) && spy.Valid() && !spy.ticking
    ensures spy != null ==> spy.entries == Entries(nav, sections) && spy.hasHeader == hasHeader
    ensures spy != null ==> exists k ::
      (IsWinner(RectsOf(spy.entries, layout), AnchorY(spy.HeaderBottom(headerBottom)), k)
      && MarkedFor(spy.entries, spy.active, k))
  {
    if |nav| == 0 {
      return null;
    }
    var entries := Entries(nav, sections);
    if |entries| == 0 {
      return null;
    }
    forall i | 0 <= i < |entries|
      ensures entries[i].id in layout
    {
      EntryIdsNameSections(nav, sections, i);
    }
    spy := new Spy(entries, hasHeader);
    ghost var k := spy.UpdateActive(headerBottom, layout);
  }
}
