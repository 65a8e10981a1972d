/** getHeaderOffset: how much of the page top the `header` element covers. */
module HeaderOffset {
  import opened Wrappers

  /** What the script reads from the computed style of the `header` element:
      its `position`, the integer parsed from its `top` value, and its `offsetHeight`. */
  datatype HeaderStyle = HeaderStyle(position: string, top: int, offsetHeight: nat)

  /** A header overlays content when it is positioned `fixed` or `sticky`. */
  predicate IsOverlaying(position: string)
  {
    position == "fixed" || position == "sticky"
  }

  /** The header offset: 0 without a header or for a header that does not overlay
      content, the rendered height otherwise. Both arms of the comparison on `top`
      give the same value. */
  function GetHeaderOffset(header: Option<HeaderStyle>): (r: nat)
    ensures header.None? ==> r == 0
    ensures header.Some? && !IsOverlaying(header.value.position) ==> r == 0
    ensures header.Some? && IsOverlaying(header.value.position) ==> r == header.value.offsetHeight
  {
    match header
    case None => 0
    case Some(h) =>
      if !IsOverlaying(h.position) then 0
      else if h.top <= 0 then h.offsetHeight else h.offsetHeight
  }

  /** The `top` value is inspected but never changes the offset. */
  lemma OffsetIgnoresTop(h: HeaderStyle, top: int)
    ensures GetHeaderOffset(Some(h.(top := top))) == GetHeaderOffset(Some(h))
  {
  }

  /** A non-zero offset only ever comes from an overlaying header, and never exceeds its height. */
  lemma OffsetComesFromOverlayingHeader(header: Option<HeaderStyle>)
    ensures GetHeaderOffset(header) != 0 ==> header.Some? && IsOverlaying(header.value.position)
    ensures header.Some? ==> GetHeaderOffset(header) <= header.value.offsetHeight
  {
  }
}
