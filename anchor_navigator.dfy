/** The anchor navigator: `scrollToId`, the same-page filter of the document click
    handler, and the deferred scroll after a load with a fragment. */
module AnchorNavigator {
  import opened Wrappers
  import opened HeaderOffset

  /** The page as `scrollToId` sees it: the viewport-relative top of the element each
      selector finds (a selector that finds nothing is absent), the current
      `pageYOffset`, and the style of the `header` element. */
  datatype Page = Page(targets: map<string, real>, pageYOffset: real, header: Option<HeaderStyle>)

  /** What `scrollToId` does when it acts: a smooth `window.scrollTo` to `top`, and a
      `history.pushState` of `hash` (whose failure is swallowed, so it has no outcome). */
  datatype Navigation = Navigation(top: real, hash: string)

  /** scrollToId: nothing for an empty hash, for "#", or for a hash whose target is
      missing; otherwise the target's document position less the header offset. */
  function ScrollToId(hash: string, page: Page): (r: Option<Navigation>)
    ensures r.None? <==> hash == "" || hash == "#" || hash !in page.targets
    ensures r.Some? ==> r.value.hash == hash
    ensures r.Some? ==>
      r.value.top == page.targets[hash] + page.pageYOffset - GetHeaderOffset(page.header) as real
  {
    if hash == "" || hash == "#" then None
    else if hash !in page.targets then None
    else
      var offset := GetHeaderOffset(page.header);
      Some(Navigation(page.targets[hash] + page.pageYOffset - offset as real, hash))
  }

  /** Once the window has scrolled to the computed top, the target's viewport-relative
      top is exactly the header offset: the target sits just below an overlaying
      header, and at the very top of the viewport otherwise. */
  lemma TargetLandsBelowHeader(hash: string, page: Page)
    requires ScrollToId(hash, page).Some?
    ensures var scrolled := ScrollToId(hash, page).value.top;
      page.targets[hash] - (scrolled - page.pageYOffset) == GetHeaderOffset(page.header) as real
  {
  }

  /** `pathname.replace(/\/$/, '')`: remove one trailing '/', if there is one. */
  function StripTrailingSlash(p: string): (r: string)
    ensures |p| > 0 && p[|p| - 1] == '/' <==> r + "/" == p
    ensures !(|p| > 0 && p[|p| - 1] == '/') <==> r == p
  {
    if |p| > 0 && p[|p| - 1] == '/' then p[..|p| - 1] else p
  }

  /** Two pathnames name the same page when they agree once each loses one trailing '/'. */
  predicate SamePath(a: string, b: string)
  {
    StripTrailingSlash(a) == StripTrailingSlash(b)
  }

  predicate EndsWithSlash(p: string)
  {
    |p| > 0 && p[|p| - 1] == '/'
  }

  /** SamePath holds exactly for equal pathnames and for pathnames that differ by one
      trailing '/' added to a pathname that did not already end in '/'. */
  lemma SamePathCharacterised(a: string, b: string)
    ensures SamePath(a, b) <==>
      a == b || (a == b + "/" && !EndsWithSlash(b)) || (b == a + "/" && !EndsWithSlash(a))
  {
  }

  /** Only one slash is removed: "//" and "/" are different pages to the filter. */
  lemma DoubleSlashNotStripped()
    ensures !SamePath("//", "/")
  {
  }

  /** The parts of `new URL(href, location.href)` the handler reads. */
  datatype Url = Url(pathname: string, hash: string)

  /** What the click handler does with a click. */
  datatype ClickOutcome =
    | Ignored                             // default action left alone
    | Intercepted(nav: Option<Navigation>) // default prevented, then scrollToId

  /** The document click handler. `href` is the `href` attribute of the closest
      `a[href^="#"]` around the click target (None when there is no such link or no
      attribute), `url` what the URL parser makes of it against the location, and
      `currentPathname` the location's pathname. */
  function OnClick(href: Option<string>, url: Url, currentPathname: string, page: Page): (r: ClickOutcome)
    ensures r.Intercepted? <==>
      href.Some? && |href.value| >= 2 && SamePath(url.pathname, currentPathname)
    ensures r.Intercepted? ==> r.nav == ScrollToId(url.hash, page)
  {
    if href.None? || href.value == "" || |href.value| < 2 then Ignored
    else if StripTrailingSlash(url.pathname) != StripTrailingSlash(currentPathname) then Ignored
    else Intercepted(ScrollToId(url.hash, page))
  }

  /** How the URL standard resolves a fragment-only reference against a base: the
      base's pathname is kept and the reference becomes the hash ("#" alone gives an
      empty hash). */
  function ResolveFragment(href: string, basePathname: string): (u: Url)
    requires |href| > 0 && href[0] == '#'
    ensures u.pathname == basePathname
    ensures |href| >= 2 ==> u.hash == href
    ensures |href| == 1 ==> u.hash == ""
  {
    Url(basePathname, if |href| == 1 then "" else href)
  }

  /** For the links the handler selects (hrefs starting with '#'), the pathname test
      always passes: every such link of two or more characters is intercepted and
      scrolls to its own href. */
  lemma FragmentLinkIsSamePage(href: string, currentPathname: string, page: Page)
    requires |href| >= 2 && href[0] == '#'
    ensures OnClick(Some(href), ResolveFragment(href, currentPathname), currentPathname, page)
      == Intercepted(ScrollToId(href, page))
  {
  }

  /** The `load` listener: with a fragment in the location, schedule scrollToId on it.
      The empty-fragment test is the same one scrollToId makes itself. */
  function OnLoad(locationHash: string, page: Page): (r: Option<Navigation>)
    ensures r == ScrollToId(locationHash, page)
    ensures r.Some? ==> locationHash in page.targets
  {
    if locationHash == "" then None else ScrollToId(locationHash, page)
  }
}
