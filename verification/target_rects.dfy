/**
 * Placement of the target window's overlay labels: children laid out from
 * their anchors and offsets against the parent's screen rectangle, and the
 * fixed-width line-of-sight indicator centred on the parent.
 */
module TargetRects {
  import opened Opt
  import opened CInt

  /** A screen rectangle by its edges. */
  datatype Rect = Rect(left: int, top: int, right: int, bottom: int)

  /** What `Move` and `Resize` receive: the top-left corner and the size. */
  datatype Placement = Placement(left: int, top: int, width: int, height: int)

  /** The child's four edge offsets. */
  datatype Offsets = Offsets(top: int, bottom: int, left: int, right: int)

  /** Which parent edge each child edge is measured from. */
  datatype Anchors = Anchors(topToTop: bool, bottomToTop: bool, leftToLeft: bool, rightToLeft: bool)

  /**
   * `GetParentRect`: the target window's location; there is none without
   * a window, and a rectangle whose four coordinates are all zero counts
   * as not laid out yet.
   */
  function GetParentRect(location: Option<Rect>): (r: Option<Rect>)
    ensures r.Some? <==> location.Some? && location.value != Rect(0, 0, 0, 0)
    ensures r.Some? ==> r.value == location.value
  {
    match location
    case None => None
    case Some(p) =>
      if p.left != 0 || p.top != 0 || p.right != 0 || p.bottom != 0 then Some(p) else None
  }

  /** The child's left and top edges are offsets forward from the chosen parent edge. */
  function LeadingEdge(near: int, far: int, toNear: bool, off: int): int
  {
    (if toNear then near else far) + off
  }

  /** The child's right and bottom edges: forward from the near edge, or back from the far one. */
  function TrailingEdge(near: int, far: int, toNear: bool, off: int): int
  {
    if toNear then near + off else far - off
  }

  /**
   * `ComputeChildRect`: nothing without a child or a parent rectangle;
   * else each edge from its anchor and offset, the size from the edges.
   */
  function ComputeChildRect(hasChild: bool, location: Option<Rect>, o: Offsets, a: Anchors): (r: Option<Placement>)
    ensures r.Some? <==> hasChild && GetParentRect(location).Some?
  {
    if !hasChild then None
    else
      match GetParentRect(location)
      case None => None
      case Some(p) =>
        var l := LeadingEdge(p.left, p.right, a.leftToLeft, o.left);
        var t := LeadingEdge(p.top, p.bottom, a.topToTop, o.top);
        var r := TrailingEdge(p.left, p.right, a.rightToLeft, o.right);
        var b := TrailingEdge(p.top, p.bottom, a.bottomToTop, o.bottom);
        Some(Placement(l, t, r - l, b - t))
  }

  /** The parent rectangle shifted by `(dx, dy)`. */
  function Shift(p: Rect, dx: int, dy: int): Rect
  {
    Rect(p.left + dx, p.top + dy, p.right + dx, p.bottom + dy)
  }

  /** The offsets that place a child at `c` against parent `p`: the inverse of the layout. */
  function OffsetsOf(p: Rect, a: Anchors, c: Placement): Offsets
  {
    Offsets(
      c.top - (if a.topToTop then p.top else p.bottom),
      if a.bottomToTop then c.top + c.height - p.top else p.bottom - (c.top + c.height),
      c.left - (if a.leftToLeft then p.left else p.right),
      if a.rightToLeft then c.left + c.width - p.left else p.right - (c.left + c.width))
  }

  /** The layout loses nothing: the offsets are read back from where the child lands. */
  lemma {:induction false} OffsetsRoundTrip(p: Rect, o: Offsets, a: Anchors)
    requires p != Rect(0, 0, 0, 0)
    ensures OffsetsOf(p, a, ComputeChildRect(true, Some(p), o, a).value) == o
  {
  }

  /** Moving the parent moves every child by as much and keeps its size. */
  lemma {:induction false} ChildFollowsParent(p: Rect, dx: int, dy: int, o: Offsets, a: Anchors)
    requires p != Rect(0, 0, 0, 0) && Shift(p, dx, dy) != Rect(0, 0, 0, 0)
    ensures var c := ComputeChildRect(true, Some(p), o, a).value;
      ComputeChildRect(true, Some(Shift(p, dx, dy)), o, a) == Some(c.(left := c.left + dx, top := c.top + dy))
  {
  }

  /**
   * Widening the parent by `d` widens a child by `d` exactly when its left
   * edge follows the parent's left and its right edge the parent's right;
   * a child anchored on one side only moves.
   */
  lemma {:induction false} WidenParent(p: Rect, d: int, o: Offsets, a: Anchors)
    requires p != Rect(0, 0, 0, 0) && p.(right := p.right + d) != Rect(0, 0, 0, 0)
    ensures var c := ComputeChildRect(true, Some(p), o, a).value;
      var w := ComputeChildRect(true, Some(p.(right := p.right + d)), o, a).value;
      w.width - c.width == (if a.rightToLeft then 0 else d) - (if a.leftToLeft then 0 else d)
      && w.height == c.height && w.top == c.top
  {
  }

  /** The indicator's fixed width and the height it falls back on. */
  const CanSeeWidth := 16
  const CanSeeFallbackHeight := 14

  /**
   * `ComputeCanSeeRect`: a 16-pixel-wide box whose centre is the parent's
   * horizontal centre (C division) moved right by `horiz`; its top is the
   * parent's top plus the top offset, and its height the difference of the
   * offsets, or 14 when that is not positive.
   */
  function ComputeCanSeeRect(hasChild: bool, location: Option<Rect>, topOff: int, bottomOff: int, horiz: int): (r: Option<Placement>)
    ensures r.Some? <==> hasChild && GetParentRect(location).Some?
    ensures r.Some? ==> r.value.width == CanSeeWidth && r.value.height > 0
    ensures r.Some? ==> r.value.top == location.value.top + topOff
    ensures r.Some? && bottomOff - topOff > 0 ==> r.value.height == bottomOff - topOff
    ensures r.Some? && bottomOff - topOff <= 0 ==> r.value.height == CanSeeFallbackHeight
  {
    if !hasChild then None
    else
      match GetParentRect(location)
      case None => None
      case Some(p) =>
        var centre := TruncDiv(p.left + p.right, 2) + horiz;
        var h := bottomOff - topOff;
        Some(Placement(centre - CanSeeWidth / 2, p.top + topOff, CanSeeWidth, if h > 0 then h else CanSeeFallbackHeight))
  }

  /**
   * The indicator is centred: twice its centre, less the shift, is within
   * one pixel of the parent's left plus right edge, rounded towards zero.
   */
  lemma {:induction false} CanSeeCentred(p: Rect, topOff: int, bottomOff: int, horiz: int)
    requires p != Rect(0, 0, 0, 0)
    ensures var c := ComputeCanSeeRect(true, Some(p), topOff, bottomOff, horiz).value;
      var twice := 2 * (c.left + c.width / 2 - horiz);
      var sum := p.left + p.right;
      (sum >= 0 ==> sum - 1 <= twice <= sum) && (sum < 0 ==> sum <= twice <= sum + 1)
  {
    var sum := p.left + p.right;
    var q := TruncDiv(sum, 2);
    assert Abs(sum - q * 2) < 2;
  }
}
