/** setupNewsSlider: the hand-rolled infinite news slider. Setup appends copies of the
    first items to the track; every animation frame moves the track left by the
    elapsed time times a fixed speed, and recycles the first child to the end once it
    has scrolled fully out of view. Mouse enter and leave pause and resume it. */
module NewsSlider {
  import opened Wrappers

  /** A child of the track: the news item it shows, and whether it carries
      `aria-hidden="true"` (the copies do). */
  datatype Node = Node(item: nat, ariaHidden: bool)

  /** Pixels per millisecond. */
  const Speed: real := 0.04
  /** The gap between two items, added to the first child's width. */
  const Gap: real := 30.0
  /** At most this many items are copied. */
  const MaxClones: nat := 5

  /** `Math.min(items.length, 5)`. */
  function CloneCount(n: nat): (c: nat)
    ensures c <= n && c <= MaxClones
    ensures c == n || c == MaxClones
  {
    if n < MaxClones then n else MaxClones
  }

  /** `cloneNode(true)` followed by `setAttribute('aria-hidden', 'true')`. */
  function Clone(n: Node): (c: Node)
    ensures c.item == n.item && c.ariaHidden
  {
    n.(ariaHidden := true)
  }

  /** The copies of `xs`, in order. */
  function Clones(xs: seq<Node>): (r: seq<Node>)
    ensures |r| == |xs|
    ensures forall i :: 0 <= i < |xs| ==> r[i].item == xs[i].item && r[i].ariaHidden
  {
    seq(|xs|, i requires 0 <= i < |xs| => Clone(xs[i]))
  }

  /** The slider's closure state as a value: the track's children, the offset, the
      timestamp of the last frame (0 before the first), and the pause flag. */
  datatype Frame = Frame(track: seq<Node>, offset: real, lastTs: real, paused: bool)

  /** `dt`: the time since the last frame, or 0 when there was no last frame. */
  function Elapsed(lastTs: real, ts: real): (dt: real)
    ensures lastTs == 0.0 ==> dt == 0.0
    ensures lastTs != 0.0 ==> dt + lastTs == ts
  {
    var last := if lastTs == 0.0 then ts else lastTs;
    ts - last
  }

  /** The track with its first child moved to the end. */
  function Rotated(t: seq<Node>): (r: seq<Node>)
    requires |t| > 0
    ensures |r| == |t| && r[|r| - 1] == t[0]
    ensures forall i :: 0 <= i < |t| - 1 ==> r[i] == t[i + 1]
    ensures multiset(r) == multiset(t)
  {
    assert t == [t[0]] + t[1..];
    t[1..] + [t[0]]
  }

  /** The offset after moving, before any recycling. */
  function Moved(s: Frame, ts: real): real
  {
    s.offset - Elapsed(s.lastTs, ts) * Speed
  }

  /** Whether the first child has scrolled fully out of view in this frame. */
  predicate Recycles(s: Frame, ts: real, firstWidth: real)
  {
    !s.paused && |s.track| > 0 && -Moved(s, ts) >= firstWidth + Gap
  }

  /** One `tick(ts)`; `firstWidth` is the rendered width of the first child. */
  function Step(s: Frame, ts: real, firstWidth: real): (r: Frame)
    ensures r.lastTs == ts && r.paused == s.paused
    ensures s.paused ==> r.track == s.track && r.offset == s.offset
    ensures multiset(r.track) == multiset(s.track)
    ensures Recycles(s, ts, firstWidth) ==>
      r.track == Rotated(s.track) && r.offset == Moved(s, ts) + firstWidth + Gap
    ensures !s.paused && !Recycles(s, ts, firstWidth) ==>
      r.track == s.track && r.offset == Moved(s, ts)
  {
    if s.paused then s.(lastTs := ts)
    else
      var moved := Moved(s, ts);
      if |s.track| > 0 && -moved >= firstWidth + Gap then
        Frame(Rotated(s.track), moved + firstWidth + Gap, ts, false)
      else
        Frame(s.track, moved, ts, false)
  }

  /** The first frame ever (or any frame after `lastTs` was 0) does not move the
      track: dt is 0. Only a recycle already due can still change the offset. */
  lemma FirstFrameDoesNotMove(s: Frame, ts: real, firstWidth: real)
    requires s.lastTs == 0.0
    ensures Moved(s, ts) == s.offset
    ensures !Recycles(s, ts, firstWidth) ==> Step(s, ts, firstWidth).offset == s.offset
  {
  }

  /** With time running forward and non-negative widths, the offset never becomes
      positive: the track only ever moves left, and a recycle gives back no more than
      the distance already travelled past the first child. */
  lemma OffsetStaysNonPositive(s: Frame, ts: real, firstWidth: real)
    requires s.offset <= 0.0 && (s.lastTs == 0.0 || s.lastTs <= ts) && firstWidth >= 0.0
    ensures Step(s, ts, firstWidth).offset <= 0.0
  {
  }

  /** The sum of the widths plus gaps of the first `j` children. */
  function PrefixWidth(t: seq<Node>, width: Node -> real, j: nat): real
    requires j <= |t|
  {
    if j == 0 then 0.0 else PrefixWidth(t, width, j - 1) + width(t[j - 1]) + Gap
  }

  /** Where the `j`-th child's left edge is drawn, relative to the list. */
  function LeftEdge(t: seq<Node>, offset: real, width: Node -> real, j: nat): real
    requires j <= |t|
  {
    offset + PrefixWidth(t, width, j)
  }

  lemma {:induction false} RotatedPrefixWidth(t: seq<Node>, width: Node -> real, j: nat)
    requires 1 <= j <= |t|
    ensures PrefixWidth(Rotated(t), width, j - 1) + width(t[0]) + Gap == PrefixWidth(t, width, j)
  {
    if j > 1 {
      RotatedPrefixWidth(t, width, j - 1);
      assert Rotated(t)[j - 2] == t[j - 1];
    }
  }

  /** A recycle causes no visual jump: every child that stays on the track keeps the
      left edge it had after this frame's move. */
  lemma {:induction false} RecycleIsContinuous(s: Frame, ts: real, width: Node -> real, j: nat)
    requires |s.track| > 0 && Recycles(s, ts, width(s.track[0]))
    requires 1 <= j <= |s.track|
    ensures var r := Step(s, ts, width(s.track[0]));
      LeftEdge(r.track, r.offset, width, j - 1) == LeftEdge(s.track, Moved(s, ts), width, j)
  {
    RotatedPrefixWidth(s.track, width, j);
  }

  /** One animation frame: its timestamp and the first child's width at that time. */
  datatype Tick = Tick(ts: real, firstWidth: real)

  /** Successive frames. */
  function Run(s: Frame, ticks: seq<Tick>): (r: Frame)
    ensures r.paused == s.paused
    ensures multiset(r.track) == multiset(s.track)
    ensures |ticks| > 0 ==> r.lastTs == ticks[|ticks| - 1].ts
    decreases |ticks|
  {
    if ticks == [] then s else Run(Step(s, ticks[0].ts, ticks[0].firstWidth), ticks[1..])
  }

  /** However many frames pass while paused, the track and offset stay where they were. */
  lemma {:induction false} PausedRunFreezes(s: Frame, ticks: seq<Tick>)
    requires s.paused
    ensures Run(s, ticks).track == s.track && Run(s, ticks).offset == s.offset
    decreases |ticks|
  {
    if ticks != [] {
      PausedRunFreezes(Step(s, ticks[0].ts, ticks[0].firstWidth), ticks[1..]);
    }
  }

  /** No catch-up after a pause: frames keep running while paused, so the first frame
      after resuming moves the track only by the time since the last paused frame,
      not by the length of the pause. */
  lemma {:induction false} ResumeHasNoCatchUp(s: Frame, ticks: seq<Tick>, ts: real, firstWidth: real)
    requires s.paused && |ticks| > 0 && ticks[|ticks| - 1].ts != 0.0
    ensures var resumed := Run(s, ticks).(paused := false);
      var last := ticks[|ticks| - 1].ts;
      Moved(resumed, ts) == s.offset - (ts - last) * Speed
  {
    PausedRunFreezes(s, ticks);
  }

  /** The slider: its track and the closure variables of `setupNewsSlider`, plus the
      offset last written to `style.transform`. */
  class Slider {
    var track: seq<Node>
    var offset: real
    var lastTs: real
    var isPaused: bool
    var translateX: real

    function State(): Frame
      reads this
    {
      Frame(track, offset, lastTs, isPaused)
    }

    constructor (track: seq<Node>)
      ensures this.track == track && offset == 0.0 && lastTs == 0.0 && !isPaused && translateX == 0.0
    {
      this.track := track;
      offset, lastTs, isPaused, translateX := 0.0, 0.0, false, 0.0;
    }

    /** The clone loop: append hidden copies of the first `min(n, 5)` items. */
    method AppendClones(items: seq<Node>)
      modifies this`track
      ensures track == old(track) + Clones(items[..CloneCount(|items|)])
    {
      var count := CloneCount(|items|);
      var i := 0;
      while i < count
        invariant 0 <= i <= count
        invariant track == old(track) + Clones(items[..i])
      {
        assert Clones(items[..i + 1]) == Clones(items[..i]) + [Clone(items[i])];
        track := track + [Clone(items[i])];
        i := i + 1;
      }
    }

    /** tick(ts): advance unless paused, recycle the first child at most once, and
        apply the offset. */
    method Tick(ts: real, firstWidth: real)
      modifies this
      ensures State() == Step(old(State()), ts, firstWidth)
      ensures !old(isPaused) ==> translateX == offset
      ensures old(isPaused) ==> translateX == old(translateX)
    {
      if lastTs == 0.0 {
        lastTs := ts;
      }
      var dt := ts - lastTs;
      lastTs := ts;
      if !isPaused {
        offset := offset - dt * Speed;
        if |track| > 0 {
          var w := firstWidth + Gap;
          if -offset >= w {
            offset := offset + w;
            track := track[1..] + [track[0]];
          }
        }
        translateX := offset;
      }
    }

    /** mouseenter. */
    method Pause()
      modifies this`isPaused
      ensures isPaused
    {
      isPaused := true;
    }

    /** mouseleave. */
    method Resume()
      modifies this`isPaused
      ensures !isPaused
    {
      isPaused := false;
    }
  }

  /** setupNewsSlider: nothing without the list or without items. Otherwise the items
      are moved into a new track (an existing track is reused as it is), the copies
      are appended, and the slider starts at offset 0, unpaused, with no last frame. */
  method SetupNewsSlider(hasList: bool, items: seq<Node>, existingTrack: Option<seq<Node>>)
    returns (slider: Slider?)
    ensures slider == null <==> !hasList || |items| == 0
    ensures slider != null ==> fresh(slider)
    ensures slider != null ==>
      slider.track == (if existingTrack.None? then items else existingTrack.value)
                      + Clones(items[..CloneCount(|items|)])
    ensures slider != null ==>
      slider.offset == 0.0 && slider.lastTs == 0.0 && !slider.isPaused
  {
    if !hasList || |items| == 0 {
      return null;
    }
    var track := if existingTrack.None? then items else existingTrack.value;
    slider := new Slider(track);
    slider.AppendClones(items);
  }

  /** After setup on a fresh track, the track holds every item and then hidden copies
      of the first min(n, 5) of them, in order. */
  lemma SetupTrackShape(items: seq<Node>, k: nat)
    requires 0 < |items| && k < CloneCount(|items|)
    ensures var t := items + Clones(items[..CloneCount(|items|)]);
      |t| == |items| + CloneCount(|items|) &&
      t[|items| + k].item == items[k].item && t[|items| + k].ariaHidden
  {
  }
}
