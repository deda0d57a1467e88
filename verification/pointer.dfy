/**
 * Pointer coordinates.  A mouse event carries viewport ("client")
 * coordinates; the handlers translate them into coordinates relative to
 * the top-left corner of the bounding canvas, whose viewport offset
 * `getBoundingClientRect()` reports.  JavaScript numbers are modelled as
 * reals.
 */
module Pointer {

  datatype Point = Point(x: real, y: real)

  /** The part of a bounding client rectangle the handlers read. */
  datatype Rect = Rect(left: real, top: real)

  /** The canvas-relative position of the client point (clientX, clientY). */
  function RelativeTo(clientX: real, clientY: real, rect: Rect): (p: Point)
    ensures p.x + rect.left == clientX
    ensures p.y + rect.top == clientY
  {
    Point(clientX - rect.left, clientY - rect.top)
  }
}
