/**
 * The pure geometry of the window manager (src/os/ui/WindowManager.tsx):
 * the position clamp, the edge-snap classification of a pointer position and
 * the canonical rectangle of each snap side.  Coordinates are exact reals, so
 * the halving of the bounds is exact.
 */
module Geometry {
  import opened Wrappers

  const SNAP_THRESHOLD: real := 24.0
  const MIN_W: real := 360.0
  const MIN_H: real := 220.0

  /** A rectangle; the usable layout area ("bounds") is one too. */
  datatype Rect = Rect(x: real, y: real, w: real, h: real)
  type Bounds = Rect

  datatype Point = Point(x: real, y: real)

  /** The snapped state of a window; `Top` doubles as "maximized". */
  datatype SnapSide = Left | Right | Top | Bottom

  function Max(a: real, b: real): real { if a >= b then a else b }
  function Min(a: real, b: real): real { if a <= b then a else b }
  function Abs(a: real): real { if a < 0.0 then -a else a }

  /** Largest x origin `clampTo` allows for a window of width `w`. */
  function XLimit(b: Bounds, w: real): real {
    b.x + b.w - Max(MIN_W, Min(w, b.w))
  }

  /** Largest y origin `clampTo` allows for a window of height `h` (never above `b.y`). */
  function YLimit(b: Bounds, h: real): real {
    b.y + Max(0.0, b.h - Max(MIN_H, Min(h, b.h)))
  }

  /**
   * `clampTo`: the origin is pulled into the bounds.  It is never left of or
   * above the bounds' origin, an origin already in range is kept, and a window
   * whose size lies between the minimum and the bounds' size ends inside.
   */
  function ClampTo(b: Bounds, x: real, y: real, w: real, h: real): (p: Point)
    ensures p.x >= b.x && p.y >= b.y
    ensures b.x <= x <= XLimit(b, w) ==> p.x == x
    ensures b.y <= y <= YLimit(b, h) ==> p.y == y
    ensures MIN_W <= w <= b.w ==> p.x + w <= b.x + b.w
    ensures MIN_H <= h <= b.h ==> p.y + h <= b.y + b.h
  {
    Point(Max(b.x, Min(x, XLimit(b, w))), Max(b.y, Min(y, YLimit(b, h))))
  }

  /** Clamping a clamped origin changes nothing. */
  lemma ClampIdempotent(b: Bounds, x: real, y: real, w: real, h: real)
    ensures var p := ClampTo(b, x, y, w, h); ClampTo(b, p.x, p.y, w, h) == p
  {
  }

  /** The pointer is within the snap threshold of the given edge. */
  predicate NearEdge(b: Bounds, px: real, py: real, side: SnapSide) {
    match side
    case Left => -SNAP_THRESHOLD <= px - b.x <= SNAP_THRESHOLD
    case Right => -SNAP_THRESHOLD <= b.x + b.w - px <= SNAP_THRESHOLD
    case Top => -SNAP_THRESHOLD <= py - b.y <= SNAP_THRESHOLD
    case Bottom => -SNAP_THRESHOLD <= b.y + b.h - py <= SNAP_THRESHOLD
  }

  /** The order in which the edges are tested. */
  function Priority(side: SnapSide): nat {
    match side
    case Left => 0
    case Right => 1
    case Top => 2
    case Bottom => 3
  }

  /**
   * Snap target of one pointer move: none while Shift is held; otherwise the
   * first edge, in the order left, right, top, bottom, that the raw pointer is
   * within 24 units of.
   */
  function SnapTarget(b: Bounds, px: real, py: real, shift: bool): (t: Option<SnapSide>)
    ensures t.Some? ==> !shift && NearEdge(b, px, py, t.value)
    ensures t.Some? ==> forall s :: Priority(s) < Priority(t.value) ==> !NearEdge(b, px, py, s)
    ensures t.None? <==> shift || forall s :: !NearEdge(b, px, py, s)
  {
    if shift then None
    else if Abs(px - b.x) <= SNAP_THRESHOLD then
      assert NearEdge(b, px, py, Left); Some(Left)
    else if Abs((b.x + b.w) - px) <= SNAP_THRESHOLD then
      assert NearEdge(b, px, py, Right); Some(Right)
    else if Abs(py - b.y) <= SNAP_THRESHOLD then
      assert NearEdge(b, px, py, Top); Some(Top)
    else if Abs((b.y + b.h) - py) <= SNAP_THRESHOLD then
      assert NearEdge(b, px, py, Bottom); Some(Bottom)
    else None
  }

  /**
   * The rectangle committed for a snap side: a half (left, right, bottom) or
   * the whole (top) of the bounds, never smaller than the minimum size.
   */
  function SnapRect(b: Bounds, side: SnapSide): (r: Rect)
    ensures r.w >= MIN_W && r.h >= MIN_H
    ensures side != Right ==> r.x == b.x
    ensures side != Bottom ==> r.y == b.y
  {
    match side
    case Left => Rect(b.x, b.y, Max(MIN_W, b.w / 2.0), Max(MIN_H, b.h))
    case Right => Rect(b.x + b.w / 2.0, b.y, Max(MIN_W, b.w / 2.0), Max(MIN_H, b.h))
    case Top => Rect(b.x, b.y, Max(MIN_W, b.w), Max(MIN_H, b.h))
    case Bottom => Rect(b.x, b.y + b.h / 2.0, Max(MIN_W, b.w), Max(MIN_H, b.h / 2.0))
  }

  predicate Inside(r: Rect, b: Bounds) {
    b.x <= r.x && r.x + r.w <= b.x + b.w && b.y <= r.y && r.y + r.h <= b.y + b.h
  }

  /**
   * On bounds at least twice the minimum size, every snap rectangle lies in
   * the bounds, and the left and right halves meet exactly in the middle.
   */
  lemma SnapRectsTile(b: Bounds)
    requires b.w >= 2.0 * MIN_W && b.h >= 2.0 * MIN_H
    ensures forall side :: Inside(SnapRect(b, side), b)
    ensures SnapRect(b, Left).x + SnapRect(b, Left).w == SnapRect(b, Right).x
    ensures SnapRect(b, Right).x + SnapRect(b, Right).w == b.x + b.w
    ensures SnapRect(b, Bottom).y + SnapRect(b, Bottom).h == b.y + b.h
    ensures SnapRect(b, Top) == b
  {
  }
}
