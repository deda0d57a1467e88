/**
 * The handlers of the canvas-area component.  They repeat the drag hook's
 * handlers, and the component registers a third window mouse-up listener
 * beside the provider's two.
 */
module CanvasLayers {
  import opened Wrappers
  import opened Pointer
  import opened LayerStore
  import DragController

  /** The store and this component's own last-mouse-position ref. */
  type View = DragController.Hook

  function HandleMouseDown(v: View, id: string): (r: View)
    ensures r.store == DragStart(v.store, id)
    ensures r.mousePosition == v.mousePosition
  {
    DragController.HandleMouseDown(v, id)
  }

  function HandleMouseUp(v: View, id: string): (r: View)
    ensures r.store == DragEnd(v.store, id)
    ensures r.mousePosition == v.mousePosition
  {
    DragController.HandleMouseUp(v, id)
  }

  /**
   * handleMouseMove: nothing without the main canvas; otherwise the
   * canvas-relative pointer is remembered and the dragged layer, if
   * pressed, is the only one repositioned.
   */
  function HandleMouseMove(v: View, clientX: real, clientY: real, canvas: Option<Rect>): (r: View)
    ensures canvas.None? ==> r == v
    ensures canvas.Some? ==> r.mousePosition == RelativeTo(clientX, clientY, canvas.value)
    ensures canvas.Some? && DraggingPressed(v.store) ==>
      r.store == DragMove(v.store, v.store.draggedLayer.value, clientX - canvas.value.left, clientY - canvas.value.top)
    ensures canvas.Some? && !DraggingPressed(v.store) ==> r.store == v.store
  {
    match canvas
    case None => DragController.HandleMouseMove(v, clientX, clientY, canvas)
    case Some(rect) =>
      DragController.MouseMoveEffect(v, clientX, clientY, rect);
      DragController.HandleMouseMove(v, clientX, clientY, canvas)
  }

  /**
   * What one window mouse-up does: the provider's two listeners and this
   * component's one all run, and together they act like a single one.
   */
  function WindowMouseUp(s: Store): (r: Store)
    ensures SameIdentities(s.layers, r.layers) && SamePositions(s.layers, r.layers)
    ensures DraggingPressed(s) ==> r.draggedLayer == None
    ensures DraggingPressed(s) ==> forall i :: 0 <= i < |s.layers| ==>
      if s.layers[i].id == s.draggedLayer.value then !r.layers[i].mouseDown
      else r.layers[i] == s.layers[i]
    ensures !DraggingPressed(s) ==> r == s
  {
    var t := ProviderMouseUp(s);
    GlobalMouseUpIdempotent(s);
    GlobalMouseUp(t)
  }
}
