/**
 * The resize hook: which corner handle, if any, is held.  Mouse-down on a
 * handle records it, mouse-up clears it, and a move over a handle emits a
 * resize request only when that handle kind is the held one.  The store's
 * resizeLayer is not part of this model; the request is the hook's output.
 */
module ResizeController {
  import opened Wrappers
  import opened Pointer

  datatype ResizeHandle = TopLeft | TopRight | BottomLeft | BottomRight

  /** The hook's `resizeHandle` state; None is `null`. */
  type Session = Option<ResizeHandle>

  /** A `resizeLayer(id, handle, x, y)` call. */
  datatype ResizeRequest = ResizeRequest(id: string, handle: ResizeHandle, x: real, y: real)

  /** handleResizeMouseDown: the held handle becomes `handle`, whichever layer it belongs to. */
  function HandleResizeMouseDown(active: Session, id: string, handle: ResizeHandle): (r: Session)
    ensures r == Some(handle)
  {
    Some(handle)
  }

  /** handleResizeMouseUp: no handle is held any more. */
  function HandleResizeMouseUp(active: Session, id: string, handle: ResizeHandle): (r: Session)
    ensures r == None
  {
    None
  }

  /**
   * handleResizeMouseMove: a request exactly when `handle` is the held
   * handle and the canvas ref is set, carrying the id and handle through and
   * the pointer in canvas coordinates.
   */
  function HandleResizeMouseMove(active: Session, id: string, handle: ResizeHandle,
                                 clientX: real, clientY: real, canvas: Option<Rect>): (r: Option<ResizeRequest>)
    ensures r.Some? <==> active == Some(handle) && canvas.Some?
    ensures r.Some? ==> r.value.id == id && r.value.handle == handle
    ensures r.Some? ==> r.value.x + canvas.value.left == clientX && r.value.y + canvas.value.top == clientY
  {
    if active != Some(handle) then None
    else match canvas
      case None => None
      case Some(rect) =>
        var p := RelativeTo(clientX, clientY, rect);
        Some(ResizeRequest(id, handle, p.x, p.y))
  }

  /** After a mouse-up on any handle, no move emits a request until the next mouse-down. */
  lemma MoveAfterUpIsNoop(active: Session, upId: string, upHandle: ResizeHandle,
                          id: string, handle: ResizeHandle, clientX: real, clientY: real, canvas: Option<Rect>)
    ensures HandleResizeMouseMove(HandleResizeMouseUp(active, upId, upHandle), id, handle, clientX, clientY, canvas) == None
  {
  }

  /** A move of a different handle kind than the held one emits nothing. */
  lemma OtherHandleIgnored(active: Session, id: string, handle: ResizeHandle,
                           clientX: real, clientY: real, canvas: Option<Rect>)
    requires active != Some(handle)
    ensures HandleResizeMouseMove(active, id, handle, clientX, clientY, canvas) == None
  {
  }

  /**
   * The guard compares handle kinds only: a handle held on layer `a`
   * admits a move of the same kind on any layer `b`.
   */
  lemma GuardIgnoresLayer(active: Session, a: string, b: string, handle: ResizeHandle,
                          clientX: real, clientY: real, rect: Rect)
    ensures var r := HandleResizeMouseMove(HandleResizeMouseDown(active, a, handle), b, handle, clientX, clientY, Some(rect));
      r == Some(ResizeRequest(b, handle, clientX - rect.left, clientY - rect.top))
  {
  }
}
