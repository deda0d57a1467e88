/**
 * The layer store of the editor: the ordered list of canvas layers and the
 * id of the layer currently being dragged, together with the five list
 * updates the provider exposes (add, delete, drag start / move / end) and
 * the window-wide mouse-up listener it registers.  Each handler is one
 * atomic transition from a store to a store.
 */
module LayerStore {
  import opened Wrappers
  import Hex

  /** Extent of the bounding area a new layer is placed in. */
  const AreaHeight: real := 600.0
  const AreaWidth: real := 1000.0
  /** Multiplier of the random colour: 0xFFFFFF. */
  const ColorRange: int := 16777215

  /** One canvas layer.  Its canvas reference is not modelled. */
  datatype Layer = Layer(id: string, top: real, left: real, color: string, mouseDown: bool)

  /** The provider's state: `layers` and `draggedLayer` (None is `null`). */
  datatype Store = Store(layers: seq<Layer>, draggedLayer: Option<string>)

  const Empty: Store := Store([], None)

  /** A value `Math.random()` can return. */
  predicate IsRandom(r: real) {
    0.0 <= r < 1.0
  }

  function Ids(ls: seq<Layer>): seq<string> {
    seq(|ls|, i requires 0 <= i < |ls| => ls[i].id)
  }

  predicate UniqueIds(ls: seq<Layer>) {
    forall i, j :: 0 <= i < j < |ls| ==> ls[i].id != ls[j].id
  }

  /** Two layer lists that agree index by index on id and colour. */
  predicate SameIdentities(a: seq<Layer>, b: seq<Layer>) {
    && |a| == |b|
    && forall i :: 0 <= i < |a| ==> a[i].id == b[i].id && a[i].color == b[i].color
  }

  /** Two layer lists that agree index by index on position. */
  predicate SamePositions(a: seq<Layer>, b: seq<Layer>) {
    && |a| == |b|
    && forall i :: 0 <= i < |a| ==> a[i].top == b[i].top && a[i].left == b[i].left
  }

  /** Two layer lists that agree index by index on the pressed flag. */
  predicate SamePressed(a: seq<Layer>, b: seq<Layer>) {
    && |a| == |b|
    && forall i :: 0 <= i < |a| ==> a[i].mouseDown == b[i].mouseDown
  }

  // ---------------------------------------------------------------------
  // addLayer

  /** The integer `Math.floor(r * 16777215)`. */
  function ColorIndex(r: real): (n: int)
    requires IsRandom(r)
    ensures 0 <= n <= ColorRange - 1
    ensures n as real <= r * ColorRange as real < n as real + 1.0
  {
    (r * ColorRange as real).Floor
  }

  /** The random colour: '#' followed by the unpadded lower-case hex of ColorIndex(r). */
  function NewColor(r: real): (c: string)
    requires IsRandom(r)
    ensures 2 <= |c| <= 7
    ensures c[0] == '#'
    ensures Hex.Canonical(c[1..])
    ensures Hex.FromHex(c[1..]) == ColorIndex(r)
  {
    var n := ColorIndex(r);
    var digits := Hex.ToHex(n);
    Hex.FromToHex(n);
    Hex.ToHexLength(n, 6);
    assert (['#'] + digits)[1..] == digits;
    ['#'] + digits
  }

  /** The record addLayer builds from a fresh id and three random draws. */
  function NewLayer(id: string, rTop: real, rLeft: real, rColor: real): (l: Layer)
    requires IsRandom(rTop) && IsRandom(rLeft) && IsRandom(rColor)
    ensures l.id == id && !l.mouseDown
    ensures 0.0 <= l.top < AreaHeight && 0.0 <= l.left < AreaWidth
    ensures l.top == rTop * AreaHeight && l.left == rLeft * AreaWidth
    ensures l.color == NewColor(rColor)
  {
    Layer(id, rTop * AreaHeight, rLeft * AreaWidth, NewColor(rColor), false)
  }

  /** addLayer: the new layer goes at the end; nothing before it moves or changes. */
  function AddLayer(s: Store, id: string, rTop: real, rLeft: real, rColor: real): (r: Store)
    requires IsRandom(rTop) && IsRandom(rLeft) && IsRandom(rColor)
    ensures |r.layers| == |s.layers| + 1
    ensures r.layers[..|s.layers|] == s.layers
    ensures r.layers[|s.layers|] == NewLayer(id, rTop, rLeft, rColor)
    ensures r.draggedLayer == s.draggedLayer
  {
    s.(layers := s.layers + [NewLayer(id, rTop, rLeft, rColor)])
  }

  // ---------------------------------------------------------------------
  // deleteLayer

  /** `ls.filter(layer => layer.id !== id)`. */
  function Without(ls: seq<Layer>, id: string): (r: seq<Layer>)
    ensures |r| <= |ls|
    ensures forall l :: l in r ==> l in ls && l.id != id
    ensures forall l :: l in ls && l.id != id ==> l in r
  {
    if ls == [] then []
    else if ls[0].id == id then Without(ls[1..], id)
    else [ls[0]] + Without(ls[1..], id)
  }

  /** deleteLayer: drops every layer carrying `id`; the drag session is untouched. */
  function DeleteLayer(s: Store, id: string): (r: Store)
    ensures id !in Ids(r.layers)
    ensures forall l :: l in s.layers && l.id != id ==> l in r.layers
    ensures forall l :: l in r.layers ==> l in s.layers
    ensures r.draggedLayer == s.draggedLayer
  {
    s.(layers := Without(s.layers, id))
  }

  // ---------------------------------------------------------------------
  // dragStart, dragMove, dragEnd

  /** `ls.map(layer => layer.id === id ? {...layer, mouseDown: v} : layer)`. */
  function SetPressed(ls: seq<Layer>, id: string, v: bool): (r: seq<Layer>)
    ensures SameIdentities(ls, r) && SamePositions(ls, r)
    ensures forall i :: 0 <= i < |ls| ==>
      r[i].mouseDown == (if ls[i].id == id then v else ls[i].mouseDown)
  {
    seq(|ls|, i requires 0 <= i < |ls| =>
      if ls[i].id == id then ls[i].(mouseDown := v) else ls[i])
  }

  /** `ls.map(layer => layer.id === id ? {...layer, left: x, top: y} : layer)`. */
  function MoveTo(ls: seq<Layer>, id: string, x: real, y: real): (r: seq<Layer>)
    ensures SameIdentities(ls, r) && SamePressed(ls, r)
    ensures forall i :: 0 <= i < |ls| ==>
      if ls[i].id == id then r[i].left == x && r[i].top == y
      else r[i].left == ls[i].left && r[i].top == ls[i].top
  {
    seq(|ls|, i requires 0 <= i < |ls| =>
      if ls[i].id == id then ls[i].(left := x, top := y) else ls[i])
  }

  /**
   * dragStart: records `id` as the dragged layer, whether or not a layer
   * has it, and presses the layers carrying it.  Layers pressed before stay
   * pressed.
   */
  function DragStart(s: Store, id: string): (r: Store)
    ensures r.draggedLayer == Some(id)
    ensures SameIdentities(s.layers, r.layers) && SamePositions(s.layers, r.layers)
    ensures forall i :: 0 <= i < |s.layers| ==>
      r.layers[i].mouseDown == (s.layers[i].mouseDown || s.layers[i].id == id)
  {
    Store(SetPressed(s.layers, id, true), Some(id))
  }

  /** dragMove: moves the layers carrying `id` to (x, y), but only while `id` is the dragged layer. */
  function DragMove(s: Store, id: string, x: real, y: real): (r: Store)
    ensures r.draggedLayer == s.draggedLayer
    ensures SameIdentities(s.layers, r.layers) && SamePressed(s.layers, r.layers)
    ensures s.draggedLayer != Some(id) ==> r == s
    ensures s.draggedLayer == Some(id) ==> forall i :: 0 <= i < |s.layers| ==>
      if s.layers[i].id == id then r.layers[i].left == x && r.layers[i].top == y
      else r.layers[i] == s.layers[i]
  {
    if s.draggedLayer == Some(id) then s.(layers := MoveTo(s.layers, id, x, y)) else s
  }

  /** dragEnd: when `id` is the dragged layer, ends the session and releases the layers carrying it. */
  function DragEnd(s: Store, id: string): (r: Store)
    ensures SameIdentities(s.layers, r.layers) && SamePositions(s.layers, r.layers)
    ensures s.draggedLayer != Some(id) ==> r == s
    ensures s.draggedLayer == Some(id) ==> r.draggedLayer == None
    ensures s.draggedLayer == Some(id) ==> forall i :: 0 <= i < |s.layers| ==>
      if s.layers[i].id == id then !r.layers[i].mouseDown
      else r.layers[i] == s.layers[i]
  {
    if s.draggedLayer == Some(id) then Store(SetPressed(s.layers, id, false), None) else s
  }

  // ---------------------------------------------------------------------
  // The window-wide mouse-up listener

  /** The ids of the pressed layers, in list order. */
  function PressedIds(ls: seq<Layer>): (r: seq<string>)
    ensures |r| <= |ls|
    ensures forall id :: id in r <==> exists i :: 0 <= i < |ls| && ls[i].mouseDown && ls[i].id == id
  {
    if ls == [] then []
    else
      var rest := PressedIds(ls[1..]);
      assert forall i :: 1 <= i < |ls| ==> ls[1..][i - 1] == ls[i];
      if ls[0].mouseDown then [ls[0].id] + rest else rest
  }

  /**
   * `ids.forEach(id => dragEnd(id))`, each call seeing the store the previous
   * one left.  The run acts at most once: on the dragged id, if it is among
   * the ids.
   */
  function EndAll(s: Store, ids: seq<string>): (r: Store)
    ensures r == if s.draggedLayer.Some? && s.draggedLayer.value in ids
                 then DragEnd(s, s.draggedLayer.value) else s
    decreases |ids|
  {
    if ids == [] then s
    else
      assert ids == [ids[0]] + ids[1..];
      EndAll(DragEnd(s, ids[0]), ids[1..])
  }

  /**
   * The listener: dragEnd for every pressed layer, in list order.  It
   * releases the dragged layer and ends the session if that layer is
   * pressed, and otherwise does nothing; other pressed layers stay pressed.
   */
  function GlobalMouseUp(s: Store): (r: Store)
    ensures DraggingPressed(s) ==> r == DragEnd(s, s.draggedLayer.value)
    ensures DraggingPressed(s) ==> r.draggedLayer == None
    ensures !DraggingPressed(s) ==> r == s
  {
    EndAll(s, PressedIds(s.layers))
  }

  /** The dragged layer, when some pressed layer carries its id. */
  predicate DraggingPressed(s: Store) {
    s.draggedLayer.Some? && s.draggedLayer.value in PressedIds(s.layers)
  }

  // ---------------------------------------------------------------------
  // Properties of deleteLayer

  /** Filtering distributes over concatenation, so the survivors keep their relative order. */
  lemma {:induction false} WithoutConcat(a: seq<Layer>, b: seq<Layer>, id: string)
    ensures Without(a + b, id) == Without(a, id) + Without(b, id)
  {
    if a == [] {
      assert a + b == b;
    } else {
      assert (a + b)[0] == a[0];
      assert (a + b)[1..] == a[1..] + b;
      WithoutConcat(a[1..], b, id);
    }
  }

  /** Filtering out an id no layer has changes nothing. */
  lemma {:induction false} WithoutAbsent(ls: seq<Layer>, id: string)
    requires id !in Ids(ls)
    ensures Without(ls, id) == ls
  {
    if ls != [] {
      assert ls[0].id == Ids(ls)[0];
      assert Ids(ls[1..]) == Ids(ls)[1..];
      WithoutAbsent(ls[1..], id);
      assert ls == [ls[0]] + ls[1..];
    }
  }

  /** Exactly the layers carrying the id are dropped. */
  lemma {:induction false} WithoutCount(ls: seq<Layer>, id: string)
    ensures |Without(ls, id)| == |ls| - multiset(Ids(ls))[id]
  {
    if ls != [] {
      assert Ids(ls) == [ls[0].id] + Ids(ls[1..]);
      WithoutCount(ls[1..], id);
    }
  }

  /** Below the head of a list with unique ids, ids stay unique and differ from the head's. */
  lemma UniqueTail(ls: seq<Layer>)
    requires UniqueIds(ls) && ls != []
    ensures UniqueIds(ls[1..])
    ensures forall l :: l in ls[1..] ==> l.id != ls[0].id
  {
    var rest := ls[1..];
    forall i, j | 0 <= i < j < |rest| ensures rest[i].id != rest[j].id {
      assert rest[i] == ls[i + 1] && rest[j] == ls[j + 1];
    }
    forall l | l in rest ensures l.id != ls[0].id {
      var k :| 0 <= k < |rest| && rest[k] == l;
      assert ls[k + 1] == l;
    }
  }

  /** Putting a layer with a new id in front keeps ids unique. */
  lemma UniqueCons(l: Layer, w: seq<Layer>)
    requires UniqueIds(w)
    requires forall m :: m in w ==> m.id != l.id
    ensures UniqueIds([l] + w)
  {
    var r := [l] + w;
    forall i, j | 0 <= i < j < |r| ensures r[i].id != r[j].id {
      assert r[j] == w[j - 1];
      if i > 0 {
        assert r[i] == w[i - 1];
      }
    }
  }

  /** Filtering keeps ids unique. */
  lemma {:induction false} WithoutKeepsUniqueIds(ls: seq<Layer>, id: string)
    requires UniqueIds(ls)
    ensures UniqueIds(Without(ls, id))
  {
    if ls != [] {
      UniqueTail(ls);
      WithoutKeepsUniqueIds(ls[1..], id);
      if ls[0].id != id {
        UniqueCons(ls[0], Without(ls[1..], id));
      }
    }
  }

  /** Deleting when no layer has the id is a no-op. */
  lemma DeleteAbsent(s: Store, id: string)
    requires id !in Ids(s.layers)
    ensures DeleteLayer(s, id) == s
  {
    WithoutAbsent(s.layers, id);
  }

  /** Deleting twice is deleting once. */
  lemma DeleteIdempotent(s: Store, id: string)
    ensures DeleteLayer(DeleteLayer(s, id), id) == DeleteLayer(s, id)
  {
    DeleteAbsent(DeleteLayer(s, id), id);
  }

  /** An element occurring only at index k occurs once. */
  lemma OccursOnce(ids: seq<string>, k: nat)
    requires k < |ids|
    requires forall i :: 0 <= i < |ids| && i != k ==> ids[i] != ids[k]
    ensures multiset(ids)[ids[k]] == 1
  {
    var id := ids[k];
    var a, b := ids[..k], ids[k + 1..];
    assert ids == a + [id] + b;
    assert id !in a by {
      forall i | 0 <= i < |a| ensures a[i] != id {
        assert a[i] == ids[i];
      }
    }
    assert id !in b by {
      forall i | 0 <= i < |b| ensures b[i] != id {
        assert b[i] == ids[k + 1 + i];
      }
    }
    assert multiset(ids) == multiset(a) + multiset{id} + multiset(b);
  }

  /** With unique ids, deleting a present id removes exactly one layer. */
  lemma DeleteRemovesOne(s: Store, id: string)
    requires UniqueIds(s.layers) && id in Ids(s.layers)
    ensures |DeleteLayer(s, id).layers| == |s.layers| - 1
  {
    var ids := Ids(s.layers);
    var k :| 0 <= k < |ids| && ids[k] == id;
    OccursOnce(ids, k);
    WithoutCount(s.layers, id);
  }

  // ---------------------------------------------------------------------
  // Properties of addLayer

  /** Adding a layer whose id is fresh keeps the ids unique. */
  lemma AddKeepsUniqueIds(s: Store, id: string, rTop: real, rLeft: real, rColor: real)
    requires IsRandom(rTop) && IsRandom(rLeft) && IsRandom(rColor)
    requires UniqueIds(s.layers) && id !in Ids(s.layers)
    ensures UniqueIds(AddLayer(s, id, rTop, rLeft, rColor).layers)
    ensures Ids(AddLayer(s, id, rTop, rLeft, rColor).layers) == Ids(s.layers) + [id]
  {
    var r := AddLayer(s, id, rTop, rLeft, rColor).layers;
    forall i, j | 0 <= i < j < |r| ensures r[i].id != r[j].id {
      if j == |s.layers| {
        assert r[i].id == Ids(s.layers)[i];
      }
    }
  }

  /** Deleting the layer just added with a fresh id restores the store. */
  lemma DeleteUndoesAdd(s: Store, id: string, rTop: real, rLeft: real, rColor: real)
    requires IsRandom(rTop) && IsRandom(rLeft) && IsRandom(rColor)
    requires id !in Ids(s.layers)
    ensures DeleteLayer(AddLayer(s, id, rTop, rLeft, rColor), id) == s
  {
    var l := NewLayer(id, rTop, rLeft, rColor);
    WithoutConcat(s.layers, [l], id);
    WithoutAbsent(s.layers, id);
    assert Without([l], id) == [];
  }

  /** The first layer added to an empty store is the only one, unpressed and inside the area. */
  lemma AddToEmpty(id: string, rTop: real, rLeft: real, rColor: real)
    requires IsRandom(rTop) && IsRandom(rLeft) && IsRandom(rColor)
    ensures var r := AddLayer(Empty, id, rTop, rLeft, rColor);
      && |r.layers| == 1 && r.layers[0].id == id && !r.layers[0].mouseDown
      && 0.0 <= r.layers[0].left < AreaWidth && 0.0 <= r.layers[0].top < AreaHeight
      && r.draggedLayer == None
  {
  }

  // ---------------------------------------------------------------------
  // Properties of the drag transitions

  /** No drag transition changes the id list. */
  lemma DragKeepsIds(s: Store, id: string, x: real, y: real)
    ensures Ids(DragStart(s, id).layers) == Ids(s.layers)
    ensures Ids(DragMove(s, id, x, y).layers) == Ids(s.layers)
    ensures Ids(DragEnd(s, id).layers) == Ids(s.layers)
  {
  }

  /** dragStart on an id no layer has only records the id. */
  lemma DragStartAbsent(s: Store, id: string)
    requires id !in Ids(s.layers)
    ensures DragStart(s, id) == Store(s.layers, Some(id))
  {
    assert forall i :: 0 <= i < |s.layers| ==> s.layers[i].id == Ids(s.layers)[i];
  }

  /** Once a layer is deleted, every transition naming it leaves the list alone. */
  lemma DeletedIdInert(s: Store, id: string, x: real, y: real)
    ensures var t := DeleteLayer(s, id);
      && DragStart(t, id).layers == t.layers
      && DragMove(t, id, x, y).layers == t.layers
      && DragEnd(t, id).layers == t.layers
      && DeleteLayer(t, id) == t
  {
    var t := DeleteLayer(s, id);
    DragStartAbsent(t, id);
    DeleteAbsent(t, id);
    assert forall i :: 0 <= i < |t.layers| ==> t.layers[i].id == Ids(t.layers)[i];
  }

  /** Moving twice in one session leaves the layer where the last move put it. */
  lemma DragMoveLastWins(s: Store, id: string, x1: real, y1: real, x2: real, y2: real)
    ensures DragMove(DragMove(s, id, x1, y1), id, x2, y2) == DragMove(s, id, x2, y2)
  {
  }

  /** Repeating a move changes nothing. */
  lemma DragMoveIdempotent(s: Store, id: string, x: real, y: real)
    ensures DragMove(DragMove(s, id, x, y), id, x, y) == DragMove(s, id, x, y)
  {
  }

  /** Repeating dragEnd changes nothing. */
  lemma DragEndIdempotent(s: Store, id: string)
    ensures DragEnd(DragEnd(s, id), id) == DragEnd(s, id)
  {
  }

  /** With no session and the layer unpressed, dragEnd undoes dragStart. */
  lemma DragEndUndoesStart(s: Store, id: string)
    requires s.draggedLayer == None
    requires forall i :: 0 <= i < |s.layers| && s.layers[i].id == id ==> !s.layers[i].mouseDown
    ensures DragEnd(DragStart(s, id), id) == s
  {
  }

  /** A whole drag: the layer ends at (x, y), released, with no session left. */
  lemma DragSession(s: Store, k: nat, x: real, y: real)
    requires k < |s.layers|
    ensures var id := s.layers[k].id;
      var r := DragEnd(DragMove(DragStart(s, id), id, x, y), id);
      && r.draggedLayer == None
      && r.layers[k].left == x && r.layers[k].top == y && !r.layers[k].mouseDown
      && Ids(r.layers) == Ids(s.layers)
  {
  }

  /**
   * Being pressed is not exclusive: a dragStart while another layer is
   * pressed leaves both pressed.
   */
  lemma PressedNotExclusive(a: Layer, b: Layer)
    requires a.id != b.id
    ensures var r := DragStart(DragStart(Store([a, b], None), a.id), b.id);
      r.layers[0].mouseDown && r.layers[1].mouseDown && r.draggedLayer == Some(b.id)
  {
  }

  // ---------------------------------------------------------------------
  // Properties of the window-wide mouse-up listener

  /** Collecting pressed ids distributes over concatenation, so list order is kept. */
  lemma {:induction false} PressedIdsConcat(a: seq<Layer>, b: seq<Layer>)
    ensures PressedIds(a + b) == PressedIds(a) + PressedIds(b)
  {
    if a == [] {
      assert a + b == b;
    } else {
      assert (a + b)[0] == a[0];
      assert (a + b)[1..] == a[1..] + b;
      PressedIdsConcat(a[1..], b);
    }
  }

  /** With nothing pressed, or no session, the listener is a no-op. */
  lemma GlobalMouseUpIdle(s: Store)
    requires PressedIds(s.layers) == [] || s.draggedLayer == None
    ensures GlobalMouseUp(s) == s
  {
  }

  /** The listener is idempotent, so registering it twice acts like registering it once. */
  lemma GlobalMouseUpIdempotent(s: Store)
    ensures GlobalMouseUp(GlobalMouseUp(s)) == GlobalMouseUp(s)
  {
  }

  /**
   * The fallback does not clear every stuck layer: a layer pressed before
   * another drag started stays pressed after a window mouse-up.
   */
  lemma FallbackLeavesEarlierPressed(a: Layer, b: Layer)
    requires a.id != b.id
    ensures var r := ProviderMouseUp(DragStart(DragStart(Store([a, b], None), a.id), b.id));
      r.layers[0].mouseDown && !r.layers[1].mouseDown && r.draggedLayer == None
  {
  }

  /** Both listeners the provider registers run on every window mouse-up. */
  function ProviderMouseUp(s: Store): (r: Store)
    ensures r == GlobalMouseUp(s)
  {
    GlobalMouseUpIdempotent(s);
    GlobalMouseUp(GlobalMouseUp(s))
  }

  // ---------------------------------------------------------------------
  // Sequences of actions

  /** One call into the store. */
  datatype Action =
    | Add(id: string, rTop: real, rLeft: real, rColor: real)
    | Delete(id: string)
    | Start(id: string)
    | Move(id: string, x: real, y: real)
    | End(id: string)
    | MouseUp

  predicate ValidAction(a: Action) {
    a.Add? ==> IsRandom(a.rTop) && IsRandom(a.rLeft) && IsRandom(a.rColor)
  }

  function Step(s: Store, a: Action): Store
    requires ValidAction(a)
  {
    match a
    case Add(id, rTop, rLeft, rColor) => AddLayer(s, id, rTop, rLeft, rColor)
    case Delete(id) => DeleteLayer(s, id)
    case Start(id) => DragStart(s, id)
    case Move(id, x, y) => DragMove(s, id, x, y)
    case End(id) => DragEnd(s, id)
    case MouseUp => ProviderMouseUp(s)
  }

  function Run(s: Store, acts: seq<Action>): Store
    requires forall i :: 0 <= i < |acts| ==> ValidAction(acts[i])
    decreases |acts|
  {
    if acts == [] then s else Run(Step(s, acts[0]), acts[1..])
  }

  /** The ids the Add actions bring in, in order. */
  function AddedIds(acts: seq<Action>): seq<string>
  {
    if acts == [] then []
    else (if acts[0].Add? then [acts[0].id] else []) + AddedIds(acts[1..])
  }

  predicate Distinct(ids: seq<string>) {
    forall i, j :: 0 <= i < j < |ids| ==> ids[i] != ids[j]
  }

  /** Every layer after a step carries an id it had before or the one an Add brought in. */
  lemma StepIds(s: Store, a: Action)
    requires ValidAction(a)
    ensures forall id :: id in Ids(Step(s, a).layers) ==> id in Ids(s.layers) || (a.Add? && id == a.id)
  {
    var r := Step(s, a);
    forall id | id in Ids(r.layers) ensures id in Ids(s.layers) || (a.Add? && id == a.id) {
      var k :| 0 <= k < |r.layers| && r.layers[k].id == id;
      match a {
        case Add(_, _, _, _) =>
          if k < |s.layers| { assert s.layers[k] == r.layers[k]; assert Ids(s.layers)[k] == id; }
        case Delete(d) =>
          assert r.layers[k] in s.layers;
          var j :| 0 <= j < |s.layers| && s.layers[j] == r.layers[k];
          assert Ids(s.layers)[j] == id;
        case MouseUp =>
          assert Ids(s.layers)[k] == id;
        case _ =>
          assert Ids(s.layers)[k] == id;
      }
    }
  }

  /** Every step keeps ids unique as long as an Add never reuses a present id. */
  lemma StepKeepsUniqueIds(s: Store, a: Action)
    requires ValidAction(a) && UniqueIds(s.layers)
    requires a.Add? ==> a.id !in Ids(s.layers)
    ensures UniqueIds(Step(s, a).layers)
  {
    match a {
      case Add(id, rTop, rLeft, rColor) => AddKeepsUniqueIds(s, id, rTop, rLeft, rColor);
      case Delete(id) => WithoutKeepsUniqueIds(s.layers, id);
      case _ =>
    }
  }

  /**
   * Starting from unique ids, any sequence of actions whose Add ids are
   * pairwise distinct and not already present keeps the ids unique.
   */
  lemma {:induction false} RunKeepsUniqueIds(s: Store, acts: seq<Action>)
    requires forall i :: 0 <= i < |acts| ==> ValidAction(acts[i])
    requires UniqueIds(s.layers)
    requires Distinct(AddedIds(acts))
    requires forall id :: id in AddedIds(acts) ==> id !in Ids(s.layers)
    ensures UniqueIds(Run(s, acts).layers)
    decreases |acts|
  {
    if acts != [] {
      var a := acts[0];
      var rest := acts[1..];
      var added := AddedIds(acts);
      assert added == (if a.Add? then [a.id] else []) + AddedIds(rest);
      var t := Step(s, a);
      StepKeepsUniqueIds(s, a);
      StepIds(s, a);
      assert Distinct(AddedIds(rest)) by {
        var off := if a.Add? then 1 else 0;
        forall i, j | 0 <= i < j < |AddedIds(rest)| ensures AddedIds(rest)[i] != AddedIds(rest)[j] {
          assert AddedIds(rest)[i] == added[i + off] && AddedIds(rest)[j] == added[j + off];
        }
      }
      forall id | id in AddedIds(rest) ensures id !in Ids(t.layers) {
        assert id in added;
        if a.Add? {
          var k :| 0 <= k < |AddedIds(rest)| && AddedIds(rest)[k] == id;
          assert added[k + 1] == id && added[0] == a.id;
        }
      }
      RunKeepsUniqueIds(t, rest);
    }
  }
}
