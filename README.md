# Page interaction rules of the jsExam site script, in Dafny

This project models the small sequential rules inside the site's page script
`assets/js/app.js`. The browser supplies values such as computed styles, bounding
rectangles, scroll offsets, pathnames and frame timestamps. Here they are plain
inputs: `real` for pixel and time values, `nat` for `offsetHeight`, `string` for
hrefs and pathnames. The modelled parts are:

- **Header offset** (`HeaderOffset`, `header_offset.dfy`): how many pixels an overlaying
  (`fixed` or `sticky`) header covers.
- **Anchor navigator** (`AnchorNavigator`, `anchor_navigator.dfy`): `scrollToId`, the
  same-page test of the document click handler (one trailing `/` stripped from each
  pathname), and the deferred scroll after a load with a fragment.
- **Header state tracker** (`HeaderState`, `header_state.dfy`): a class holding the
  threshold (hero height less the header offset) and the "scrolled" flag. It has the
  `update` and resize handlers as methods.
- **Scroll spy** (`ScrollSpy`, `scroll_spy.dfy`): the entry filter, the anchor line,
  and the selection loop of `updateActive`. `SelectSection` is proved against the
  selection rule `IsWinner`. The class `Spy` holds the per-entry active flags and the
  `ticking` guard. A ghost count of queued frame callbacks shows that at most one is
  ever pending.
- **News slider** (`NewsSlider`, `news_slider.dfy`): clone setup and the per-frame
  `tick`. The class `Slider` holds the track's children, `offset`, `lastTs` and
  `isPaused`. Its `Tick` method is proved equal to the pure step function `Step`.
  Lemmas about `Step` state the continuity of a recycle, freezing while paused, and
  the absence of catch-up after resuming.

Two behaviours of the code are worth stating plainly:

- Resuming does not reset `lastTs`. The frame loop keeps running while the slider is
  paused (assets/js/app.js:194-198, 210), and every frame stores its timestamp. So the
  first frame after resuming moves the track by one frame's time only, never by the
  length of the pause. This is `ResumeHasNoCatchUp`.
- One might expect exactly one active nav entry. The marking loop
  (assets/js/app.js:271-274) activates every entry whose href equals the winner's,
  so two nav items that link to the same section are both active. `ExactlyOneActive`
  proves the exactly-one property for distinct hrefs. `SameHrefBothActive` states the
  duplicate case. The loop also visits entries only: a nav item that is not an entry
  keeps whatever `active` class the markup gave it.

## Model

| member | source | states |
|---|---|---|
| `HeaderOffset.GetHeaderOffset` | assets/js/app.js:4-14 | The offset is 0 without a header or when its position is neither fixed nor sticky. Otherwise it is the header's offsetHeight. |
| `HeaderOffset.IsOverlaying` | assets/js/app.js:9 | A header overlays content exactly when its position is "fixed" or "sticky". |
| `HeaderOffset.OffsetIgnoresTop` | assets/js/app.js:11-13 | The parsed `top` value never changes the offset, because both arms of the comparison are the same. |
| `HeaderOffset.OffsetComesFromOverlayingHeader` | assets/js/app.js:6-13 | A non-zero offset comes only from an overlaying header, and it never exceeds that header's height. |
| `AnchorNavigator.ScrollToId` | assets/js/app.js:16-28 | There is no scroll and no history entry exactly when the hash is empty, is "#", or has no target. Otherwise the scroll goes to target top + pageYOffset − header offset, and the hash is pushed. |
| `AnchorNavigator.TargetLandsBelowHeader` | assets/js/app.js:20-22 | After the scroll, the target's viewport top equals the header offset, so the target sits just under an overlaying header. |
| `AnchorNavigator.StripTrailingSlash` | assets/js/app.js:36 | The result plus "/" is the input exactly when the input ends in '/'. Otherwise the result is the input. |
| `AnchorNavigator.SamePathCharacterised` | assets/js/app.js:36 | Two pathnames pass the filter if and only if they are equal, or one is the other plus a '/' and the other does not already end in '/'. |
| `AnchorNavigator.SamePath` | assets/js/app.js:36 | Two pathnames name the same page when they are equal after one trailing '/' is stripped from each. |
| `AnchorNavigator.DoubleSlashNotStripped` | assets/js/app.js:36 | Only one slash is removed: "//" and "/" count as different pages. |
| `AnchorNavigator.OnClick` | assets/js/app.js:30-39 | A click is intercepted if and only if it has an href of length ≥ 2 whose URL pathname matches the current pathname after one trailing '/' is stripped from each. An intercepted click then runs scrollToId on the URL's hash. Every other click is ignored. |
| `AnchorNavigator.ResolveFragment` | assets/js/app.js:35 | Resolving a '#' reference keeps the base pathname. The hash is the href, or empty for "#" alone. |
| `AnchorNavigator.FragmentLinkIsSamePage` | assets/js/app.js:31-38 | For the '#' links the handler selects, the path test always passes: every such link of two or more characters is intercepted and scrolls to its own href. |
| `AnchorNavigator.OnLoad` | assets/js/app.js:42-48 | The load-time scroll behaves exactly like scrollToId on the location's hash, and acts only when that hash has a target. |
| `HeaderState.ScrollY` | assets/js/app.js:65 | The scroll position is pageYOffset when that is non-zero, and the root scrollTop otherwise. |
| `HeaderState.Threshold` | assets/js/app.js:62 | The threshold is at most the hero height. It is the hero height without an overlaying header, and the hero height less the header's height with one. |
| `HeaderState.IsScrolled` | assets/js/app.js:66 | The header is scrolled exactly when y ≥ threshold. |
| `HeaderState.ScrolledIsMonotone` | assets/js/app.js:66-70 | Scrolling further down never clears the scrolled state. |
| `HeaderState.TallerHeaderScrollsSooner` | assets/js/app.js:62 | A taller overlaying header lowers the threshold, so a position that is scrolled stays scrolled. |
| `HeaderState.HeaderTracker.constructor` | assets/js/app.js:62-73 | Setup stores the threshold and runs update once. |
| `HeaderState.HeaderTracker.Update` | assets/js/app.js:64-71 | The header is marked scrolled if and only if y ≥ threshold. Only that flag changes. |
| `HeaderState.HeaderTracker.Resize` | assets/js/app.js:75-78 | Resize recomputes the threshold from the current hero and header, then updates. |
| `HeaderState.UpdateIsIdempotent` | assets/js/app.js:64-71 | Running update twice with the same inputs leaves the same state as running it once, and the threshold is unchanged. |
| `HeaderState.SetupHeaderScrollState` | assets/js/app.js:57-79 | Nothing is set up if and only if the header or the hero is missing. Otherwise the threshold and the flag are as above. |
| `ScrollSpy.Qualifies` | assets/js/app.js:230-235 | A nav item qualifies exactly when it has a `#` link whose href is neither empty nor "#" and finds a section. |
| `ScrollSpy.EntriesFrom` | assets/js/app.js:229-237 | Every entry comes from a qualifying nav item and carries that item's href. The items appear in strictly increasing order. |
| `ScrollSpy.EntriesFromComplete` | assets/js/app.js:229-237 | No qualifying nav item at or after the start position is dropped. |
| `ScrollSpy.Entries` | assets/js/app.js:229-237 | The entries are exactly the nav items whose link is not empty, is not "#", and names an existing section, each once, in navigation order. |
| `ScrollSpy.EntryIdsNameSections` | assets/js/app.js:230-236 | No entry id is "" or "#", and every entry id names an existing section. |
| `ScrollSpy.AnchorY` | assets/js/app.js:243-249 | The anchor line is always ≥ 0 and lies strictly below the header's bottom edge. It is bottom + 1 when that is ≥ 0, 0 when it is below 0, and 1 without a header. |
| `ScrollSpy.Contains` | assets/js/app.js:258 | A section contains the anchor line exactly when top ≤ line < bottom. |
| `ScrollSpy.Distance` | assets/js/app.js:264 | For a section that does not contain the line, the distance is non-negative: to the top edge when the line is above, to the bottom edge otherwise. |
| `ScrollSpy.SelectSection` | assets/js/app.js:252-269 | The loop with early exit and running minimum returns the first section that contains the anchor line. When none does, it returns a section of minimum distance, with no earlier section at the same distance. |
| `ScrollSpy.WinnerIsUnique` | assets/js/app.js:256-269 | The selection rule determines at most one section. |
| `ScrollSpy.GapPicksNearerSection` | assets/js/app.js:264-268 | With the anchor line in a gap between two of three sections, the nearer section is selected and no other. |
| `ScrollSpy.OverlapPicksEarlierSection` | assets/js/app.js:258-263 | When overlapping sections both contain the line, the earlier one wins. |
| `ScrollSpy.RectsOf` | assets/js/app.js:257 | Measurement glue: the rectangle of each entry's section, in entry order, taken from the layout input. |
| `ScrollSpy.ExactlyOneActive` | assets/js/app.js:271-274 | With distinct hrefs, exactly one entry is active afterwards: the selected one. |
| `ScrollSpy.SameHrefBothActive` | assets/js/app.js:272-273 | An entry that shares the winner's href is active along with it. |
| `ScrollSpy.Spy.constructor` | assets/js/app.js:239-241 | A spy starts with its entries, no pending frame, and ticking false. |
| `ScrollSpy.Spy.UpdateActive` | assets/js/app.js:251-275 | The selected entry follows the selection rule at the current anchor line. Each entry is active if and only if its href is the winner's. |
| `ScrollSpy.Spy.OnScroll` | assets/js/app.js:279-287 | A callback is scheduled if and only if ticking was false. Afterwards ticking is true and exactly one callback is pending. |
| `ScrollSpy.Spy.OnFrame` | assets/js/app.js:282-285 | The frame callback runs updateActive and then clears ticking. Afterwards no callback is pending. |
| `ScrollSpy.ScrollStorm` | assets/js/app.js:277-290 | Scroll events before a frame queue one callback if there was at least one event, and none otherwise. Ticking is set exactly when events > 0, and the active flags are unchanged. |
| `ScrollSpy.SetupScrollSpy` | assets/js/app.js:225-292 | Nothing is set up if and only if no nav item qualifies. Otherwise the spy holds the entries and has run updateActive once, with nothing pending. |
| `NewsSlider.CloneCount` | assets/js/app.js:182 | The clone count is min(n, 5). |
| `NewsSlider.Clone` | assets/js/app.js:184-185 | A clone shows the same item and is aria-hidden. |
| `NewsSlider.Clones` | assets/js/app.js:183-187 | One hidden copy per item, in order. |
| `NewsSlider.Elapsed` | assets/js/app.js:195-196 | dt is 0 when there was no last frame (lastTs is 0). Otherwise it is the time since the last frame. |
| `NewsSlider.Rotated` | assets/js/app.js:205 | Moving the first child to the end keeps the children as a multiset and shifts the others forward by one. |
| `NewsSlider.Moved` | assets/js/app.js:199 | The offset after this frame's move: the old offset less dt·0.04. |
| `NewsSlider.Recycles` | assets/js/app.js:200-203 | A recycle happens exactly when the slider is not paused, the track has a first child, and −offset ≥ width + 30 after the move. |
| `NewsSlider.Step` | assets/js/app.js:194-211 | lastTs becomes ts. While paused, the track and offset are unchanged. Otherwise the offset moves by −dt·0.04. If −offset ≥ width + 30, exactly one recycle adds width + 30 back and rotates the track. The children are always preserved as a multiset. |
| `NewsSlider.FirstFrameDoesNotMove` | assets/js/app.js:195-199 | On a frame with lastTs 0, dt is 0, so the move leaves the offset unchanged. The offset stays the same unless a recycle was already due (−offset ≥ width + 30). |
| `NewsSlider.OffsetStaysNonPositive` | assets/js/app.js:199-206 | With time running forward and non-negative widths, the offset stays ≤ 0. |
| `NewsSlider.RecycleIsContinuous` | assets/js/app.js:202-206 | A recycle causes no visual jump: every remaining child keeps its left edge. |
| `NewsSlider.Run` | assets/js/app.js:194-211 | Over any sequence of frames, the children are preserved as a multiset, the pause flag is kept, and lastTs is the last frame's timestamp. |
| `NewsSlider.PausedRunFreezes` | assets/js/app.js:198 | However many frames pass while paused, the track and offset do not change. |
| `NewsSlider.ResumeHasNoCatchUp` | assets/js/app.js:194-219 | The first frame after a resume moves the offset by the time since the last paused frame only, not by the length of the pause. |
| `NewsSlider.Slider.constructor` | assets/js/app.js:189-191 | The slider starts at offset 0, unpaused, with no last frame. |
| `NewsSlider.Slider.AppendClones` | assets/js/app.js:182-187 | The track gets hidden copies of the first min(n, 5) items appended, in order. |
| `NewsSlider.Slider.Tick` | assets/js/app.js:194-211 | The new state is `Step` of the old one. The transform is written only when not paused. |
| `NewsSlider.Slider.Pause` | assets/js/app.js:214-216 | mouseenter sets the pause flag. |
| `NewsSlider.Slider.Resume` | assets/js/app.js:217-219 | mouseleave clears the pause flag. |
| `NewsSlider.SetupNewsSlider` | assets/js/app.js:164-191 | Nothing is set up if and only if the list or the items are missing. Otherwise the track is the items (or the existing track) followed by the clones, at offset 0, unpaused. |
| `NewsSlider.SetupTrackShape` | assets/js/app.js:171-187 | A fresh track holds every item, then hidden copies of the first min(n, 5) items, in order. |

## Left out

- `renderNewsFromJson` (network fetch, JSON parsing, DOM construction) and `formatDate`: I/O, and a foreign locale-dependent date formatter (`toLocaleDateString`).
- The DOM effects are kept only as abstract state: class toggles, `style.transform`, `cloneNode`, `aria-hidden`. Nav-item classes become `Spy.active`, the header class becomes `HeaderTracker.scrolled`, and the transform becomes `Slider.translateX`.
- The smooth-scroll animation, clamping to the document's bounds, and the `history.pushState` call and its swallowed exception: `Navigation` only records the requested target and hash.
- Listener wiring, `requestAnimationFrame` and `setTimeout` scheduling: the handlers are methods that the caller invokes in order. The browser's queue of spy callbacks is the ghost counter `Spy.pendingFrames`. The slider's endless frame loop is a sequence of `Tick` calls (`Run`).
- Measurement is taken as input. `getComputedStyle`, `getBoundingClientRect` and `offsetHeight` are parameters. `document.querySelector` results are a set or map of selectors that find an element. A selector that makes `querySelector` throw is not modelled.
- `parseInt` of the header's `top` value: the parsed integer is an input, since it never changes the result.
- URL parsing: `OnClick` takes the parsed pathname and hash as inputs. `ResolveFragment` does not model the percent-encoding of fragment characters.
- Floating point: pixel and time values are exact reals, so there is no IEEE rounding and no NaN (`!lastTs` is modelled as `lastTs == 0`). `Infinity` as the initial best distance is modelled as "no candidate yet".
- The `active` classes of nav items that are not entries (no `#` link, a bare "#", or a missing section): the marking loop never visits them, so they keep their class from the markup. The model tracks the entries' classes only, and those start all inactive because setup overwrites them at once.
