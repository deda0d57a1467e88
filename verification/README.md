# Layer editor state machine in Dafny

This project models the state logic behind a browser canvas editor. The user adds rectangular canvas
"layers", drags them around a 1000×600 bounding area, and deletes them from a side panel.
The model covers four parts:

- **Layer store** (`LayerStore`, layer_store.dfy): the provider's state. That is an ordered list of layer records
  (`id`, `top`, `left`, `color`, `mouseDown`) plus the id of the dragged layer, or none. The module has the
  provider's transitions: `addLayer`, `deleteLayer`, `dragStart`, `dragMove`, `dragEnd`, and the window-wide
  mouse-up listener. The provider registers that listener twice.
- **Drag hook** (`DragController`, drag_controller.dfy): mouse-down/up forward to `dragStart`/`dragEnd`. A mouse
  move turns client coordinates into canvas coordinates, stores them as the last mouse position, and calls
  `dragMove` for every pressed layer in list order.
- **Resize hook** (`ResizeController`, resize_controller.dfy): the held corner handle, or none. Its three handlers
  emit a `resizeLayer` request only when the handle kind matches the held one.
- **Canvas area handlers** (`CanvasLayers`, canvas_layers.dfy): the component's copies of the drag handlers,
  and its third window mouse-up listener.

Helper modules: `Wrappers` (an `Option` for JavaScript `null`), `Hex` (the unpadded lower-case rendering
`toString(16)` produces, with a parser it is proved against), and `Pointer` (client-to-canvas coordinates).

Each event handler is one atomic transition from state to state. A `forEach` that calls a store
operation becomes a fold, and each call sees the store the previous call left. Foreign inputs become
parameters:
- `uuidv4()` becomes an `id` argument. Freshness is a precondition of the uniqueness lemmas only.
- `Math.random()` becomes a real argument in [0, 1).
- `getBoundingClientRect()` becomes an optional `Rect`. `None` means the canvas ref is empty.

Some behaviours of the code that a reader might not expect:
- `dragStart` records the id even when no layer has it (`DragStartAbsent`). It is not a no-op.
- Pressing is not exclusive. A `dragStart` while another layer is pressed leaves both pressed
  (`PressedNotExclusive`). So "at most one layer is dragging" is not stated anywhere.
- The window mouse-up fallback releases only the dragged layer. A layer left pressed by an earlier
  `dragStart` stays pressed (`FallbackLeavesEarlierPressed`), so the fallback does not clear every
  stuck layer.
- `dragEnd` on the dragged id clears the session even when no layer carries that id any more.
- Layers have no width or height. `resizeLayer` is not defined by the store, so the resize hook's
  request is its output, and no geometry is invented for it.

## Model

| member | source | states |
|---|---|---|
| Hex.Digit | pages/context/LayerContext.tsx:72 | the digit for a value below 16 is a lower-case hex digit, and is '0' exactly for 0 |
| Hex.DigitValue | pages/context/LayerContext.tsx:72 | a hex digit's value is below 16 and renders back to the same digit |
| Hex.ToHex | pages/context/LayerContext.tsx:72 | toString(16) of a non-negative integer is a non-empty lower-case hex numeral with no leading zero; it has one digit exactly when the number is below 16 |
| Hex.FromToHex | pages/context/LayerContext.tsx:72 | parsing the rendering of n gives back n |
| Hex.ToFromHex | pages/context/LayerContext.tsx:72 | rendering the value of any canonical numeral gives back that numeral, so the rendering is a bijection onto canonical numerals |
| Hex.ToHexLength | pages/context/LayerContext.tsx:72 | a number below 16^k has at most k hex digits |
| Pointer.RelativeTo | pages/hooks/useDragLayer.tsx:21-23 | the canvas point plus the rectangle offset is the client point |
| LayerStore.ColorIndex | pages/context/LayerContext.tsx:72 | floor(r * 16777215) lies in [0, 16777214] and is the floor of the product |
| LayerStore.NewColor | pages/context/LayerContext.tsx:72 | the colour is '#' followed by 1 to 6 canonical hex digits whose value is floor(r * 16777215) |
| LayerStore.NewLayer | pages/context/LayerContext.tsx:70-81 | the new layer carries the given id, is not pressed, has top r1*600 in [0,600) and left r2*1000 in [0,1000), and the random colour |
| LayerStore.AddLayer | pages/context/LayerContext.tsx:83 | exactly one layer is appended; the earlier layers are unchanged and in order; the session is untouched |
| LayerStore.Without | pages/context/LayerContext.tsx:87 | the filter keeps exactly the layers whose id differs, and no others |
| LayerStore.DeleteLayer | pages/context/LayerContext.tsx:86-88 | no layer with the id remains; every other layer survives; nothing new appears; the session is untouched |
| LayerStore.WithoutConcat | pages/context/LayerContext.tsx:87 | the filter distributes over concatenation, so survivors keep their relative order |
| LayerStore.WithoutAbsent | pages/context/LayerContext.tsx:87 | filtering an id no layer has returns the list unchanged |
| LayerStore.WithoutCount | pages/context/LayerContext.tsx:87 | the length drops by exactly the number of layers carrying the id |
| LayerStore.WithoutKeepsUniqueIds | pages/context/LayerContext.tsx:87 | the filter keeps ids unique |
| LayerStore.DeleteAbsent | pages/context/LayerContext.tsx:86-88 | deleting an absent id is a no-op |
| LayerStore.DeleteIdempotent | pages/context/LayerContext.tsx:86-88 | deleting twice equals deleting once |
| LayerStore.DeleteRemovesOne | pages/context/LayerContext.tsx:86-88 | with unique ids, deleting a present id removes exactly one layer |
| LayerStore.AddKeepsUniqueIds | pages/context/LayerContext.tsx:74-83 | adding with a fresh id keeps ids unique and appends the id to the id list |
| LayerStore.DeleteUndoesAdd | pages/context/LayerContext.tsx:83-88 | deleting the layer just added with a fresh id restores the previous store |
| LayerStore.AddToEmpty | pages/context/LayerContext.tsx:69-83 | adding to the empty store yields one unpressed layer inside the area, with no session |
| LayerStore.SetPressed | pages/context/LayerContext.tsx:94-96 | the map sets the pressed flag on the layers carrying the id and changes nothing else |
| LayerStore.MoveTo | pages/context/LayerContext.tsx:103-105 | the map repositions the layers carrying the id and changes nothing else |
| LayerStore.DragStart | pages/context/LayerContext.tsx:91-98 | the session becomes the id; a layer is pressed afterwards iff it was pressed or carries the id; ids, colours and positions are unchanged |
| LayerStore.DragMove | pages/context/LayerContext.tsx:100-108 | only when the id is the dragged one, the layers carrying it move to (x, y) and all others are unchanged; otherwise a no-op; ids, colours, pressed flags and session never change |
| LayerStore.DragEnd | pages/context/LayerContext.tsx:110-119 | when the id is the dragged one, the session is cleared and the layers carrying it are released, all others unchanged; otherwise a no-op |
| LayerStore.DragKeepsIds | pages/context/LayerContext.tsx:91-119 | no drag transition changes the id list |
| LayerStore.DragStartAbsent | pages/context/LayerContext.tsx:91-98 | dragStart on an absent id leaves the list alone but records the id |
| LayerStore.DeletedIdInert | pages/context/LayerContext.tsx:86-119 | after deleting an id, dragStart, dragMove, dragEnd and deleteLayer naming it leave the list unchanged |
| LayerStore.DragMoveLastWins | pages/context/LayerContext.tsx:100-108 | two moves in a row equal the second move alone |
| LayerStore.DragMoveIdempotent | pages/context/LayerContext.tsx:100-108 | repeating a move changes nothing |
| LayerStore.DragEndIdempotent | pages/context/LayerContext.tsx:110-119 | repeating dragEnd changes nothing |
| LayerStore.DragEndUndoesStart | pages/context/LayerContext.tsx:91-119 | with no session and the layer unpressed, dragEnd after dragStart restores the store |
| LayerStore.DragSession | pages/context/LayerContext.tsx:91-119 | start, move to (x, y), end on a present layer leaves it at (x, y), released, with no session and the same ids |
| LayerStore.PressedNotExclusive | pages/context/LayerContext.tsx:91-98 | dragStart on b while a is pressed leaves both pressed |
| LayerStore.PressedIds | pages/context/LayerContext.tsx:124-128 | an id is collected iff some pressed layer carries it |
| LayerStore.PressedIdsConcat | pages/context/LayerContext.tsx:124-128 | collection distributes over concatenation, so pressed ids come in list order |
| LayerStore.EndAll | pages/context/LayerContext.tsx:123-129 | the forEach of dragEnd calls equals one dragEnd of the dragged id if it is among the ids, and is otherwise a no-op |
| LayerStore.GlobalMouseUp | pages/context/LayerContext.tsx:123-129 | the listener (also the copy at pages/components/CanvasLayers.tsx:18-24) releases the dragged layer and clears the session if that layer is pressed, and otherwise does nothing |
| LayerStore.FallbackLeavesEarlierPressed | pages/context/LayerContext.tsx:91-151 | a layer pressed before another drag started stays pressed after a window mouse-up, while the dragged one is released and the session ends |
| LayerStore.GlobalMouseUpIdle | pages/context/LayerContext.tsx:122-135 | with no pressed layer, or no session, the listener is a no-op |
| LayerStore.GlobalMouseUpIdempotent | pages/context/LayerContext.tsx:122-151 | running the listener twice equals running it once |
| LayerStore.ProviderMouseUp | pages/context/LayerContext.tsx:122-151 | the provider's two registered listeners together act like one |
| LayerStore.StepIds | pages/context/LayerContext.tsx:69-151 | after any one action, every id present was present before or is the one an add brought in |
| LayerStore.StepKeepsUniqueIds | pages/context/LayerContext.tsx:69-151 | any one action keeps ids unique when an add does not reuse a present id |
| LayerStore.RunKeepsUniqueIds | pages/context/LayerContext.tsx:75 | any action sequence whose added ids are distinct and fresh keeps ids unique |
| DragController.HandleMouseDown | pages/hooks/useDragLayer.tsx:10-12 | forwards exactly to dragStart and leaves the mouse position alone |
| DragController.HandleMouseUp | pages/hooks/useDragLayer.tsx:14-16 | forwards exactly to dragEnd and leaves the mouse position alone |
| DragController.Calls | pages/hooks/useDragLayer.tsx:27-31 | one dragMove call per given id, in order, all at the same point |
| DragController.MoveCalls | pages/hooks/useDragLayer.tsx:18-31 | no call without a canvas; otherwise one call per pressed layer, in list order, at the client point minus the rectangle offset |
| DragController.ApplyMoves | pages/hooks/useDragLayer.tsx:27-31 | applying dragMove calls never changes ids, colours, pressed flags or the session |
| DragController.HandleMouseMove | pages/hooks/useDragLayer.tsx:18-32 | no effect without a canvas; otherwise the canvas-relative point becomes the last mouse position; ids, colours, pressed flags and session are unchanged |
| DragController.ApplyMovesEffect | pages/hooks/useDragLayer.tsx:27-31 | the calls at one point act as one dragMove of the dragged id if it is among them, and otherwise as nothing |
| DragController.MouseMoveEffect | pages/hooks/useDragLayer.tsx:18-31 | a move repositions the dragged layer exactly when it is pressed, and otherwise leaves the store alone |
| DragController.PointerDrag | pages/hooks/useDragLayer.tsx:10-31 | down, move over the canvas, up on a layer leaves it at the canvas-relative pointer, released, with no session |
| ResizeController.HandleResizeMouseDown | pages/hooks/useResizableLayer.tsx:14-22 | the held handle becomes the pressed handle, whatever was held |
| ResizeController.HandleResizeMouseUp | pages/hooks/useResizableLayer.tsx:24-32 | no handle is held afterwards |
| ResizeController.HandleResizeMouseMove | pages/hooks/useResizableLayer.tsx:34-49 | a request is emitted iff the handle is the held one and the canvas is present; it carries the id and handle unchanged and the canvas-relative pointer |
| ResizeController.MoveAfterUpIsNoop | pages/hooks/useResizableLayer.tsx:24-39 | after a mouse-up, any move emits nothing |
| ResizeController.OtherHandleIgnored | pages/hooks/useResizableLayer.tsx:39 | a move whose handle is not the held one, including when none is held, emits nothing |
| ResizeController.GuardIgnoresLayer | pages/hooks/useResizableLayer.tsx:39-48 | a handle held on one layer admits a move of the same kind on another layer |
| CanvasLayers.HandleMouseDown | pages/components/CanvasLayers.tsx:32-34 | forwards exactly to dragStart |
| CanvasLayers.HandleMouseUp | pages/components/CanvasLayers.tsx:36-38 | forwards exactly to dragEnd |
| CanvasLayers.HandleMouseMove | pages/components/CanvasLayers.tsx:40-53 | no effect without the canvas; otherwise the canvas-relative point is remembered, and the dragged layer, if pressed, is the only one moved there |
| CanvasLayers.WindowMouseUp | pages/components/CanvasLayers.tsx:17-30 | the three window listeners together release the dragged layer and clear the session if that layer is pressed, and otherwise do nothing; ids, colours and positions never change |

## Left out

- Canvas drawing (`useCanvasInitialization`, `useCanvasLayersUpdate`, the per-layer canvas component) only fills rectangles, and the layer's canvas `ref` field is not modelled.
- JSX rendering, the side panel, the page bootstrap, and the fixed 100×100 layer size shown in the markup are left out. They are presentation only.
- React runtime semantics are left out: `useState` batching, stale closures, effect registration and removal, and `window.addEventListener`. Each handler is one atomic step. The drag-end and drag-move folds give the same result under stale closures, because only calls naming the dragged id act, and those calls are idempotent.
- JavaScript numbers are unbounded reals here. Double-precision rounding of `Math.random() * 600` and similar products is not modelled.
- `uuidv4`, `Math.random` and `getBoundingClientRect` are parameters. `console.log` is dropped.
- `event.stopPropagation()` in the resize handlers is left out, because event propagation is a DOM concern. The `null` that `handleMouseMove` returns early is left out too, because nothing reads it.
- `resizeLayer` is not defined by the layer store, so its effect on a layer is not modelled. Only the request the resize hook emits is modelled.
- The throw of `useCanvasLayer` outside its provider is left out. It is React wiring.
