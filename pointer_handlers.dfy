/**
 * The pointer handlers of the board provider, as functions of the store state
 * and of what the page reports: which actions a press, a move, a release or a
 * click on ADD dispatches, and the state after the reducer has run them.
 */
module PointerHandlers {
  import opened Wrappers
  import opened BoardStore

  /** A bounding client rectangle: `left`, `top`, `width`, `height`. */
  datatype Rect = Rect(left: int, top: int, width: int, height: int)

  /** The side of a box, in pixels; the position may go up to `extent - BoxSize - 1`. */
  const BoxSize: int := 32

  function Min(a: int, b: int): int { if a <= b then a else b }

  function Max(a: int, b: int): int { if a >= b then a else b }

  /** The largest coordinate a box may take in a container of this width or height. */
  function DragLimit(extent: int): int
  {
    extent - BoxSize - 1
  }

  /** `Math.min(Math.max(0, v), hi)`: when `hi` is negative the result is `hi`. */
  function Clamp(v: int, hi: int): (r: int)
    ensures r <= hi
    ensures 0 <= hi ==> 0 <= r
    ensures 0 <= v <= hi ==> r == v
    ensures v < 0 && 0 <= hi ==> r == 0
    ensures hi < v || hi < 0 ==> r == hi
  {
    Min(Max(0, v), hi)
  }

  /** JavaScript truthiness of an optional string: present and not empty. */
  predicate Truthy(id: Option<string>)
  {
    id.Some? && id.value != ""
  }

  /**
   * The position a move dispatches: the pointer minus the pointer-to-corner
   * offset taken at press time, relative to the container, clamped to it.
   */
  function MovePos(client: Point, relPt: Point, lastPt: Point, parent: Rect): (p: Point)
    ensures 0 <= DragLimit(parent.width) ==> 0 <= p.x <= DragLimit(parent.width)
    ensures 0 <= DragLimit(parent.height) ==> 0 <= p.y <= DragLimit(parent.height)
    ensures var dx := lastPt.x - parent.left + (client.x - relPt.x);
      0 <= dx <= DragLimit(parent.width) ==> p.x == dx
    ensures var dy := lastPt.y - parent.top + (client.y - relPt.y);
      0 <= dy <= DragLimit(parent.height) ==> p.y == dy
  {
    var x := client.x - (relPt.x - lastPt.x) - parent.left;
    var y := client.y - (relPt.y - lastPt.y) - parent.top;
    Point(Clamp(x, DragLimit(parent.width)), Clamp(y, DragLimit(parent.height)))
  }

  /** The page events the provider reacts to; `root` is the container's rectangle when it is mounted. */
  datatype Event =
    | Create(draw: Draw)
    | Press(target: Option<string>, corner: Point, client: Point)
    | Move(client: Point, root: Option<Rect>)
    | Release

  /** A move acts only with a selection, both press points and a mounted container. */
  predicate MoveActive(s: BoardState, root: Option<Rect>)
  {
    Truthy(s.selectingId) && s.lastDraggingPoint.Some? && s.elementRelativeDraggingPoint.Some? && root.Some?
  }

  /**
   * The actions each event dispatches, in order: a press dispatches nothing or
   * SELECT_ELEMENT followed by START_DRAGGING, a move at most one
   * SET_ELEMENT_POS carrying the current selection, and no event an action
   * of unknown type.
   */
  function Dispatched(s: BoardState, ev: Event): (r: seq<Action>)
    ensures |r| <= 2
    ensures forall j :: 0 <= j < |r| ==> !r[j].Unrecognised?
    ensures ev.Press? ==> (r == [] <==> !Truthy(ev.target))
    ensures ev.Press? && r != [] ==> |r| == 2 && r[0] == SelectElement(ev.target.value) && r[1].StartDragging?
    ensures ev.Move? ==> |r| <= 1 && forall j :: 0 <= j < |r| ==> r[j].SetElementPos? && r[j].payloadId == s.selectingId
    ensures ev.Release? || ev.Create? ==> |r| == 1
  {
    match ev
    case Create(d) => [CreateElement(d)]
    case Press(target, corner, client) =>
      if Truthy(target) then [SelectElement(target.value), StartDragging(corner, client)] else []
    case Move(client, root) =>
      if MoveActive(s, root) then
        [SetElementPos(s.selectingId,
          MovePos(client, s.elementRelativeDraggingPoint.value, s.lastDraggingPoint.value, root.value))]
      else []
    case Release => [ClearFocus]
  }

  /** Runs the reducer over the actions one after another. */
  function ApplyAll(s: BoardState, acts: seq<Action>): BoardState
    decreases |acts|
  {
    if |acts| == 0 then s else ApplyAll(Reducer(s, acts[0]), acts[1..])
  }

  /**
   * The store state after an event has been handled: only ADD adds a box, no
   * event removes one, and after a release nothing is selected.
   */
  function Step(s: BoardState, ev: Event): (r: BoardState)
    ensures |r.elements| == |s.elements| + (if ev.Create? then 1 else 0)
    ensures ev.Release? ==> r.selectingId.None? && r.lastDraggingPoint.None?
  {
    var acts := Dispatched(s, ev);
    if |acts| == 1 then
      ApplyOne(s, acts[0]);
      assert acts == [acts[0]];
      ApplyAll(s, acts)
    else if |acts| == 2 then
      ApplyTwo(s, acts[0], acts[1]);
      assert acts == [acts[0], acts[1]];
      ApplyAll(s, acts)
    else
      ApplyAll(s, acts)
  }

  lemma ApplyTwo(s: BoardState, a: Action, b: Action)
    ensures ApplyAll(s, [a, b]) == Reducer(Reducer(s, a), b)
  {
    assert [a, b][1..] == [b];
    ApplyOne(Reducer(s, a), b);
  }

  lemma ApplyOne(s: BoardState, a: Action)
    ensures ApplyAll(s, [a]) == Reducer(s, a)
  {
    assert [a][1..] == [];
  }

  /**
   * A press on a box with an id selects it (bringing it to the top when it is
   * on the board) and records its corner and the pointer position.
   */
  lemma PressStartsDrag(s: BoardState, id: string, corner: Point, client: Point)
    requires id != ""
    ensures var r := Step(s, Press(Some(id), corner, client));
      && r.elements == SelectElements(s.elements, id)
      && r.selectingId == Some(id)
      && r.lastDraggingPoint == Some(corner)
      && r.elementRelativeDraggingPoint == Some(client)
      && (HasId(s.elements, id) ==> r.elements[|r.elements| - 1].id == id)
  {
    ApplyTwo(s, SelectElement(id), StartDragging(corner, client));
    if HasId(s.elements, id) {
      SelectPresentMovesToEnd(s, id);
    }
  }

  /** A press whose target carries no id, or an empty one, changes nothing. */
  lemma PressWithoutIdIsNoop(s: BoardState, target: Option<string>, corner: Point, client: Point)
    requires !Truthy(target)
    ensures Step(s, Press(target, corner, client)) == s
  {
  }

  /** Without a selection, both press points and the container, a move changes nothing. */
  lemma MoveWithoutDragIsNoop(s: BoardState, client: Point, root: Option<Rect>)
    requires !MoveActive(s, root)
    ensures Step(s, Move(client, root)) == s
  {
  }

  /** A release clears the selection and the corner point, and a second release changes nothing. */
  lemma ReleaseClearsFocus(s: BoardState)
    ensures var r := Step(s, Release);
      && r == s.(selectingId := None, lastDraggingPoint := None)
      && Step(r, Release) == r
  {
    ApplyOne(s, ClearFocus);
    ApplyOne(s.(selectingId := None, lastDraggingPoint := None), ClearFocus);
  }

  /** Every move after a release is a no-op. */
  lemma MoveAfterReleaseIsNoop(s: BoardState, client: Point, root: Option<Rect>)
    ensures Step(Step(s, Release), Move(client, root)) == Step(s, Release)
  {
    ReleaseClearsFocus(s);
  }

  /**
   * A move in a container at least one box wide and high keeps every selected
   * box inside `[0, width-33] x [0, height-33]` and leaves all other boxes, the
   * ids, the order and the drag fields as they were.
   */
  lemma MoveKeepsBoxInside(s: BoardState, client: Point, rect: Rect)
    requires MoveActive(s, Some(rect))
    requires 0 <= DragLimit(rect.width) && 0 <= DragLimit(rect.height)
    ensures var r := Step(s, Move(client, Some(rect)));
      && |r.elements| == |s.elements|
      && (forall j :: 0 <= j < |s.elements| ==> r.elements[j].id == s.elements[j].id)
      && (forall j :: 0 <= j < |s.elements| && s.selectingId == Some(s.elements[j].id) ==>
            0 <= r.elements[j].x <= DragLimit(rect.width) && 0 <= r.elements[j].y <= DragLimit(rect.height))
      && (forall j :: 0 <= j < |s.elements| && s.selectingId != Some(s.elements[j].id) ==>
            r.elements[j] == s.elements[j])
      && r.(elements := s.elements) == s
  {
    var p := MovePos(client, s.elementRelativeDraggingPoint.value, s.lastDraggingPoint.value, rect);
    ApplyOne(s, SetElementPos(s.selectingId, p));
    SetElementPosOnlySelected(s, s.selectingId, p);
  }

  /**
   * Press then move: the box brought to the top lands at its press corner,
   * relative to the container, plus the pointer's displacement, whenever that
   * spot lies inside the container.
   */
  lemma DragPreservesOffset(s: BoardState, id: string, corner: Point, pressAt: Point, moveTo: Point, rect: Rect)
    requires id != "" && HasId(s.elements, id)
    requires 0 <= corner.x - rect.left + (moveTo.x - pressAt.x) <= DragLimit(rect.width)
    requires 0 <= corner.y - rect.top + (moveTo.y - pressAt.y) <= DragLimit(rect.height)
    ensures var r := Step(Step(s, Press(Some(id), corner, pressAt)), Move(moveTo, Some(rect)));
      && |r.elements| == |s.elements|
      && r.elements[|r.elements| - 1] ==
         Element(id, corner.x - rect.left + (moveTo.x - pressAt.x), corner.y - rect.top + (moveTo.y - pressAt.y))
  {
    var s1 := Step(s, Press(Some(id), corner, pressAt));
    PressStartsDrag(s, id, corner, pressAt);
    SelectPresentMovesToEnd(s, id);
    MoveKeepsBoxInside(s1, moveTo, rect);
    var p := MovePos(moveTo, pressAt, corner, rect);
    ApplyOne(s1, SetElementPos(s1.selectingId, p));
    SetElementPosOnlySelected(s1, s1.selectingId, p);
  }

  /**
   * The drag fields stay coherent under the page events: a corner point is
   * never recorded without a pointer point, and a selection always comes with
   * a corner point and is never the empty id.
   */
  predicate DragConsistent(s: BoardState)
  {
    && (s.lastDraggingPoint.Some? ==> s.elementRelativeDraggingPoint.Some?)
    && (s.selectingId.Some? ==> s.lastDraggingPoint.Some? && s.selectingId.value != "")
  }

  lemma StepKeepsDragConsistent(s: BoardState, ev: Event)
    requires DragConsistent(s)
    ensures DragConsistent(Step(s, ev))
  {
    match ev
    case Create(d) => ApplyOne(s, CreateElement(d));
    case Press(target, corner, client) =>
      if Truthy(target) { PressStartsDrag(s, target.value, corner, client); }
    case Move(client, root) =>
      if MoveActive(s, root) {
        var p := MovePos(client, s.elementRelativeDraggingPoint.value, s.lastDraggingPoint.value, root.value);
        ApplyOne(s, SetElementPos(s.selectingId, p));
      }
    case Release => ReleaseClearsFocus(s);
  }

  /** In a coherent state with the container mounted, a move acts exactly when a box is selected. */
  lemma MoveActsIffSelecting(s: BoardState, client: Point, rect: Rect)
    requires DragConsistent(s)
    ensures |Dispatched(s, Move(client, Some(rect)))| == 1 <==> s.selectingId.Some?
    ensures s.selectingId.None? ==> Step(s, Move(client, Some(rect))) == s
  {
  }

  /** A press comes from a rendered box, so its id, when it has one, is on the board. */
  predicate PressOnBoard(s: BoardState, ev: Event)
  {
    ev.Press? && Truthy(ev.target) ==> HasId(s.elements, ev.target.value)
  }

  /** The selection names a box on the board. */
  predicate SelectionOnBoard(s: BoardState)
  {
    s.selectingId.Some? ==> HasId(s.elements, s.selectingId.value)
  }

  lemma StepKeepsSelectionOnBoard(s: BoardState, ev: Event)
    requires SelectionOnBoard(s) && PressOnBoard(s, ev)
    ensures SelectionOnBoard(Step(s, ev))
  {
    var r := Step(s, ev);
    match ev
    case Create(d) =>
      ApplyOne(s, CreateElement(d));
      if s.selectingId.Some? {
        var j :| 0 <= j < |s.elements| && s.elements[j].id == s.selectingId.value;
        assert r.elements[j] == s.elements[j];
      }
    case Press(target, corner, client) =>
      if Truthy(target) {
        PressStartsDrag(s, target.value, corner, client);
        SelectPresentMovesToEnd(s, target.value);
        assert r.elements[|r.elements| - 1].id == target.value;
      }
    case Move(client, root) =>
      if MoveActive(s, root) {
        var p := MovePos(client, s.elementRelativeDraggingPoint.value, s.lastDraggingPoint.value, root.value);
        ApplyOne(s, SetElementPos(s.selectingId, p));
        var j :| 0 <= j < |s.elements| && s.elements[j].id == s.selectingId.value;
        assert r.elements[j].id == s.elements[j].id;
      }
    case Release => ReleaseClearsFocus(s);
  }

  /**
   * A 400x400 container at the screen origin; a box created at (10,10) is
   * pressed at (15,15) and the pointer moves to (115,115): the box is at
   * (110,110), and after the release it stays there with nothing selected.
   */
  lemma DragScenario(id: string)
    requires id != ""
    ensures var root := Some(Rect(0, 0, 400, 400));
      var s1 := Step(DefaultState, Create(Draw(id, 10, 10)));
      var s2 := Step(s1, Press(Some(id), Point(10, 10), Point(15, 15)));
      var s3 := Step(s2, Move(Point(115, 115), root));
      var s4 := Step(s3, Release);
      && s1.elements == [Element(id, 10, 10)]
      && s3.elements == [Element(id, 110, 110)]
      && s4.elements == [Element(id, 110, 110)]
      && s4.selectingId.None?
      && s4.lastDraggingPoint.None?
  {
    var e := Element(id, 10, 10);
    var s1 := Step(DefaultState, Create(Draw(id, 10, 10)));
    ApplyOne(DefaultState, CreateElement(Draw(id, 10, 10)));
    assert s1 == BoardState([e], None, None, None);
    assert HasId(s1.elements, id) by { assert s1.elements[0].id == id; }
    var s2 := Step(s1, Press(Some(id), Point(10, 10), Point(15, 15)));
    var s3 := Step(s2, Move(Point(115, 115), Some(Rect(0, 0, 400, 400))));
    DragPreservesOffset(s1, id, Point(10, 10), Point(15, 15), Point(115, 115), Rect(0, 0, 400, 400));
    assert |s3.elements| == 1 && s3.elements[0] == Element(id, 110, 110);
    assert s3.elements == [Element(id, 110, 110)];
    ReleaseClearsFocus(s3);
  }
}
