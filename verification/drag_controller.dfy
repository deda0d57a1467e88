/**
 * The drag hook: mouse-down and mouse-up on a layer forward to the store's
 * dragStart and dragEnd, and a mouse move over the bounding area turns the
 * pointer into canvas coordinates, remembers them, and calls dragMove for
 * every pressed layer in list order.
 */
module DragController {
  import opened Wrappers
  import opened Pointer
  import opened LayerStore

  /** The store the hook talks to and the hook's last-mouse-position ref. */
  datatype Hook = Hook(store: Store, mousePosition: Point)

  /** One dragMove call the move handler makes. */
  datatype MoveCall = MoveCall(id: string, x: real, y: real)

  function HandleMouseDown(h: Hook, id: string): (r: Hook)
    ensures r.store == DragStart(h.store, id)
    ensures r.mousePosition == h.mousePosition
  {
    h.(store := DragStart(h.store, id))
  }

  function HandleMouseUp(h: Hook, id: string): (r: Hook)
    ensures r.store == DragEnd(h.store, id)
    ensures r.mousePosition == h.mousePosition
  {
    h.(store := DragEnd(h.store, id))
  }

  /** The dragMove calls for one pointer position: one per pressed layer, in list order. */
  function Calls(ids: seq<string>, p: Point): (cs: seq<MoveCall>)
    ensures |cs| == |ids|
    ensures forall i :: 0 <= i < |ids| ==> cs[i] == MoveCall(ids[i], p.x, p.y)
  {
    seq(|ids|, i requires 0 <= i < |ids| => MoveCall(ids[i], p.x, p.y))
  }

  /**
   * The calls a move makes: none without a canvas, and otherwise one per
   * pressed layer, in list order, at the canvas-relative pointer.
   */
  function MoveCalls(h: Hook, clientX: real, clientY: real, canvas: Option<Rect>): (cs: seq<MoveCall>)
    ensures canvas.None? ==> cs == []
    ensures canvas.Some? ==> |cs| == |PressedIds(h.store.layers)|
    ensures canvas.Some? ==> forall i :: 0 <= i < |cs| ==>
      && cs[i].id == PressedIds(h.store.layers)[i]
      && cs[i].x + canvas.value.left == clientX
      && cs[i].y + canvas.value.top == clientY
  {
    match canvas
    case None => []
    case Some(rect) => Calls(PressedIds(h.store.layers), RelativeTo(clientX, clientY, rect))
  }

  /** Applies dragMove calls in order, each to the store the previous one left. */
  function ApplyMoves(s: Store, cs: seq<MoveCall>): (r: Store)
    ensures SameIdentities(s.layers, r.layers) && SamePressed(s.layers, r.layers)
    ensures r.draggedLayer == s.draggedLayer
    decreases |cs|
  {
    if cs == [] then s else ApplyMoves(DragMove(s, cs[0].id, cs[0].x, cs[0].y), cs[1..])
  }

  /** handleMouseMove; `canvas` is the bounding rectangle of the main canvas, None when its ref is empty. */
  function HandleMouseMove(h: Hook, clientX: real, clientY: real, canvas: Option<Rect>): (r: Hook)
    ensures canvas.None? ==> r == h
    ensures canvas.Some? ==> r.mousePosition == RelativeTo(clientX, clientY, canvas.value)
    ensures SameIdentities(h.store.layers, r.store.layers) && SamePressed(h.store.layers, r.store.layers)
    ensures r.store.draggedLayer == h.store.draggedLayer
  {
    match canvas
    case None => h
    case Some(rect) =>
      Hook(ApplyMoves(h.store, MoveCalls(h, clientX, clientY, canvas)), RelativeTo(clientX, clientY, rect))
  }

  /** Calls at one point act at most once: a dragMove of the dragged id, if it is among them. */
  lemma {:induction false} ApplyMovesEffect(s: Store, ids: seq<string>, p: Point)
    ensures ApplyMoves(s, Calls(ids, p)) ==
      if s.draggedLayer.Some? && s.draggedLayer.value in ids
      then DragMove(s, s.draggedLayer.value, p.x, p.y) else s
    decreases |ids|
  {
    if ids != [] {
      var cs := Calls(ids, p);
      assert cs[1..] == Calls(ids[1..], p);
      var t := DragMove(s, ids[0], p.x, p.y);
      ApplyMovesEffect(t, ids[1..], p);
      assert ids == [ids[0]] + ids[1..];
      if s.draggedLayer == Some(ids[0]) {
        DragMoveIdempotent(s, ids[0], p.x, p.y);
      }
    }
  }

  /**
   * With a canvas, a move repositions the dragged layer exactly when it is
   * pressed, and otherwise leaves the store alone: at most the layers
   * carrying the dragged id change position.
   */
  lemma MouseMoveEffect(h: Hook, clientX: real, clientY: real, rect: Rect)
    ensures var r := HandleMouseMove(h, clientX, clientY, Some(rect));
      var p := RelativeTo(clientX, clientY, rect);
      && (DraggingPressed(h.store) ==> r.store == DragMove(h.store, h.store.draggedLayer.value, p.x, p.y))
      && (!DraggingPressed(h.store) ==> r.store == h.store)
  {
    ApplyMovesEffect(h.store, PressedIds(h.store.layers), RelativeTo(clientX, clientY, rect));
  }

  /**
   * Pressing a layer, moving the pointer over the canvas and releasing
   * leaves the layer at the canvas-relative pointer, released, with no
   * session, and the pointer remembered.
   */
  lemma PointerDrag(h: Hook, k: nat, clientX: real, clientY: real, rect: Rect)
    requires k < |h.store.layers|
    ensures var id := h.store.layers[k].id;
      var r := HandleMouseUp(HandleMouseMove(HandleMouseDown(h, id), clientX, clientY, Some(rect)), id);
      && r.store.layers[k].left == clientX - rect.left
      && r.store.layers[k].top == clientY - rect.top
      && !r.store.layers[k].mouseDown
      && r.store.draggedLayer == None
      && r.mousePosition == RelativeTo(clientX, clientY, rect)
  {
    var id := h.store.layers[k].id;
    var h1 := HandleMouseDown(h, id);
    assert h1.store.layers[k].mouseDown;
    assert DraggingPressed(h1.store);
    MouseMoveEffect(h1, clientX, clientY, rect);
  }
}
