/**
 * The per-frame viewport in the main loop (src/platform.c:556-573): a
 * minimised window (zero width or height) only sleeps; otherwise the largest
 * 16:9 rectangle made of whole 16x9 cells is centred in the client area.
 */
module Letterbox {
  import opened Common

  /** The width of GLint and GLsizei. */
  type int32 = x: int | -0x8000_0000 <= x < 0x8000_0000

  const INT32_MAX: int := 0x7FFF_FFFF

  /** The milliseconds slept for a minimised window. */
  const MinimisedSleep: nat := 16

  /** A conversion to a 32-bit signed integer: the value modulo 2^32, read in two's complement. */
  function ToInt32(v: int): (r: int32)
    ensures (r - v) % 0x1_0000_0000 == 0
    ensures 0 <= v <= INT32_MAX ==> r == v
  {
    var m := v % 0x1_0000_0000;
    if m <= INT32_MAX then m else m - 0x1_0000_0000
  }

  /** C's signed division by 2, which rounds toward zero. */
  function HalfTowardZero(v: int32): (r: int32)
    ensures v >= 0 ==> 2 * r <= v <= 2 * r + 1
    ensures v < 0 ==> 2 * r - 1 <= v <= 2 * r
  {
    if v >= 0 then v / 2 else -((-(v as int)) / 2)
  }

  datatype Viewport = Viewport(x: int32, y: int32, width: int32, height: int32)

  /** What one iteration of the loop does with the screen. */
  datatype FrameAction = Sleep(milliseconds: nat) | Draw(viewport: Viewport)

  /** The number of whole 16x9 cells that fit in each direction. */
  function Cells(w: uint32, h: uint32): (m: nat)
    ensures 16 * m <= w && 9 * m <= h
    ensures 16 * (m + 1) > w || 9 * (m + 1) > h
  {
    var mw := w / 16;
    var mh := h / 9;
    if mh < mw then mh else mw
  }

  /**
   * One iteration's screen work for a client area of w x h. The arguments of the
   * viewport call go through the GLint and GLsizei conversions of the source;
   * they are exact when both sides fit in a GLint (any real window).
   */
  function Frame(w: uint32, h: uint32): (action: FrameAction)
    ensures action.Sleep? <==> w == 0 || h == 0
    ensures action.Sleep? ==> action.milliseconds == MinimisedSleep
    ensures action.Draw? && w <= INT32_MAX && h <= INT32_MAX ==>
      var v := action.viewport;
      && v.width * 9 == v.height * 16
      && 0 <= v.x && 0 <= v.y
      && 2 * v.x + v.width <= w <= 2 * v.x + v.width + 1
      && 2 * v.y + v.height <= h <= 2 * v.y + v.height + 1
      && (v.width + 16 > w || v.height + 9 > h)
  {
    if w == 0 || h == 0 then Sleep(MinimisedSleep)
    else
      var m := Cells(w, h);
      Draw(Viewport(
        HalfTowardZero(ToInt32(w - m * 16)),
        HalfTowardZero(ToInt32(h - m * 9)),
        ToInt32(ToInt32(m) * 16),
        ToInt32(ToInt32(m) * 9)))
  }
}
