/**
 * The wheel zoom of `handleWheelScroll`: the scale steps by the zoom speed,
 * down for a positive wheel delta and up otherwise, and is clamped to
 * [0.1, 100]. Reals stand for JavaScript's doubles.
 */
module Zoom {

  const ZoomSpeed: real := 0.1
  const MinScale: real := 0.1
  const MaxScale: real := 100.0
  const InitialScale: real := 1.0

  /** `Math.sign`: -1, 0 or 1. */
  function Sign(x: real): (r: int)
    ensures r > 0 <==> x > 0.0
    ensures r == 0 <==> x == 0.0
  {
    if x > 0.0 then 1 else if x < 0.0 then -1 else 0
  }

  /** `Math.min(Math.max(lo, x), hi)`. */
  function Clamp(x: real): (r: real)
    ensures MinScale <= r <= MaxScale
    ensures MinScale <= x <= MaxScale ==> r == x
    ensures x < MinScale ==> r == MinScale
    ensures x > MaxScale ==> r == MaxScale
  {
    var atLeast := if MinScale > x then MinScale else x;
    if atLeast < MaxScale then atLeast else MaxScale
  }

  /** The scale after one wheel event with vertical delta `deltaY`. */
  function Zoomed(scale: real, deltaY: real): (r: real)
    ensures MinScale <= r <= MaxScale
    ensures MinScale <= scale <= MaxScale && deltaY > 0.0 ==> r <= scale
    ensures MinScale <= scale <= MaxScale && deltaY <= 0.0 ==> r >= scale
    ensures deltaY > 0.0 && scale - ZoomSpeed >= MinScale && scale <= MaxScale ==> r == scale - ZoomSpeed
    ensures deltaY <= 0.0 && scale >= MinScale && scale + ZoomSpeed <= MaxScale ==> r == scale + ZoomSpeed
  {
    Clamp(scale + (if Sign(deltaY) > 0 then -ZoomSpeed else ZoomSpeed))
  }

  /**
   * Away from the bounds, a step in and a step out cancel in either order. This
   * holds in exact arithmetic; the program's doubles can drift by an ulp
   * (0.3 + 0.1 - 0.1 is 0.30000000000000004).
   */
  lemma ZoomRoundTrip(scale: real, down: real, up: real)
    requires down > 0.0 && up <= 0.0
    ensures MinScale <= scale <= MaxScale - ZoomSpeed ==> Zoomed(Zoomed(scale, up), down) == scale
    ensures MinScale + ZoomSpeed <= scale <= MaxScale ==> Zoomed(Zoomed(scale, down), up) == scale
  {
  }

  /** At a bound, a step further out of range leaves the scale where it is. */
  lemma ZoomSaturates(down: real, up: real)
    requires down > 0.0 && up <= 0.0
    ensures Zoomed(MinScale, down) == MinScale
    ensures Zoomed(MaxScale, up) == MaxScale
  {
  }
}
