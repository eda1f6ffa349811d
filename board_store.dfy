/**
 * The board store of the drawing canvas: the state shape (an ordered list of
 * boxes plus the transient selection and drag points) and the reducer that
 * every dispatched action goes through.
 */
module BoardStore {
  import opened Wrappers

  /** A screen or container coordinate, in whole pixels. */
  datatype Point = Point(x: int, y: int)

  /** A draggable box: its id and its top-left corner inside the container. */
  datatype Element = Element(id: string, x: int, y: int)

  /**
   * `lastDraggingPoint` holds the box's bounding-box corner captured at press
   * time and `elementRelativeDraggingPoint` the pointer position captured at
   * press time (the names are the store's own, not a description of them).
   */
  datatype BoardState = BoardState(
    elements: seq<Element>,
    selectingId: Option<string>,
    lastDraggingPoint: Option<Point>,
    elementRelativeDraggingPoint: Option<Point>)

  const DefaultState: BoardState := BoardState([], None, None, None)

  /** floor(random * 201): the integer the random source yields for `randomBetween(0, 200)`. */
  type Roll200 = k: int | 0 <= k <= 200

  /** What CREATE_ELEMENT reads from the random source: a fresh id and the two coordinate rolls. */
  datatype Draw = Draw(id: string, xRoll: Roll200, yRoll: Roll200)

  /**
   * The actions the reducer knows, plus `Unrecognised` for an action whose
   * type string is none of the five names.
   */
  datatype Action =
    | CreateElement(draw: Draw)
    | SelectElement(id: string)
    | StartDragging(relPos: Point, elPos: Point)
    | SetElementPos(payloadId: Option<string>, pos: Point)
    | ClearFocus
    | Unrecognised(tag: string)

  /** `randomBetween(s, e)`, given the roll floor(random * (e - s + 1)). */
  function RandomBetween(s: int, e: int, roll: int): (r: int)
    requires 0 <= roll <= e - s
    ensures s <= r <= e
  {
    s + roll
  }

  predicate HasId(els: seq<Element>, id: string)
  {
    exists j :: 0 <= j < |els| && els[j].id == id
  }

  /** `Array.prototype.findIndex` on the id: the first position holding `id`, or -1. */
  function FindIndex(els: seq<Element>, id: string): (k: int)
    ensures -1 <= k < |els|
    ensures 0 <= k ==> els[k].id == id && forall j :: 0 <= j < k ==> els[j].id != id
    ensures k == -1 <==> !HasId(els, id)
  {
    if |els| == 0 then -1
    else if els[0].id == id then 0
    else
      var k := FindIndex(els[1..], id);
      assert forall j :: 0 < j < |els| ==> els[j] == els[1..][j - 1];
      if k == -1 then -1 else k + 1
  }

  /**
   * The element list after SELECT_ELEMENT: the first element with `id` is taken
   * out and put at the end. When `id` is missing the list is kept; on a
   * non-empty list this is what removing the last element and pushing it back
   * gives, and the empty list is treated in module SelectAsWritten.
   */
  function SelectElements(els: seq<Element>, id: string): (r: seq<Element>)
    ensures |r| == |els|
    ensures HasId(els, id) ==> r[|r| - 1].id == id
    ensures !HasId(els, id) ==> r == els
  {
    var i := FindIndex(els, id);
    if i < 0 then els else els[..i] + els[i + 1..] + [els[i]]
  }

  /** The `map` of SET_ELEMENT_POS: every element whose id is `sel` takes the coordinates of `pos`. */
  function MoveSelected(els: seq<Element>, sel: Option<string>, pos: Point): (r: seq<Element>)
    ensures |r| == |els|
    ensures forall j :: 0 <= j < |els| ==> r[j].id == els[j].id
    ensures forall j :: 0 <= j < |els| && sel == Some(els[j].id) ==> r[j].x == pos.x && r[j].y == pos.y
    ensures forall j :: 0 <= j < |els| && sel != Some(els[j].id) ==> r[j] == els[j]
  {
    if |els| == 0 then []
    else
      var head := if sel == Some(els[0].id) then els[0].(x := pos.x, y := pos.y) else els[0];
      [head] + MoveSelected(els[1..], sel, pos)
  }

  /**
   * The store's reducer. Only CREATE_ELEMENT changes the number of boxes, only
   * SELECT_ELEMENT and CLEAR_FOCUS touch the selection, and only START_DRAGGING
   * touches the pointer point.
   */
  function Reducer(s: BoardState, a: Action): (r: BoardState)
    ensures |r.elements| == |s.elements| + (if a.CreateElement? then 1 else 0)
    ensures !a.SelectElement? && !a.ClearFocus? ==> r.selectingId == s.selectingId
    ensures !a.StartDragging? ==> r.elementRelativeDraggingPoint == s.elementRelativeDraggingPoint
  {
    match a
    case CreateElement(d) =>
      var e := Element(d.id, RandomBetween(0, 200, d.xRoll), RandomBetween(0, 200, d.yRoll));
      s.(elements := s.elements + [e])
    case SelectElement(id) =>
      s.(selectingId := Some(id), elements := SelectElements(s.elements, id))
    case StartDragging(relPos, elPos) =>
      s.(lastDraggingPoint := Some(relPos), elementRelativeDraggingPoint := Some(elPos))
    case SetElementPos(_, pos) =>
      s.(elements := MoveSelected(s.elements, s.selectingId, pos))
    case ClearFocus =>
      s.(selectingId := None, lastDraggingPoint := None)
    case Unrecognised(_) =>
      s
  }

  /** CREATE_ELEMENT appends one box with the drawn id inside [0,200]x[0,200] and changes nothing else. */
  lemma CreateAppends(s: BoardState, d: Draw)
    ensures var r := Reducer(s, CreateElement(d));
      && |r.elements| == |s.elements| + 1
      && r.elements[..|s.elements|] == s.elements
      && r.elements[|s.elements|].id == d.id
      && 0 <= r.elements[|s.elements|].x <= 200
      && 0 <= r.elements[|s.elements|].y <= 200
      && r.(elements := s.elements) == s
  {
  }

  /**
   * SELECT_ELEMENT with an id that is present: the result is a permutation of
   * the list, the first element holding the id is now last, the others keep
   * their relative order, and the id becomes the selection.
   */
  lemma SelectPresentMovesToEnd(s: BoardState, id: string)
    requires HasId(s.elements, id)
    ensures var r := Reducer(s, SelectElement(id)); var n := |s.elements|; var i := FindIndex(s.elements, id);
      && |r.elements| == n
      && multiset(r.elements) == multiset(s.elements)
      && r.elements[n - 1].id == id
      && r.elements[n - 1] == s.elements[i]
      && (forall j :: 0 <= j < i ==> r.elements[j] == s.elements[j])
      && (forall j :: i <= j < n - 1 ==> r.elements[j] == s.elements[j + 1])
      && r.selectingId == Some(id)
      && r.lastDraggingPoint == s.lastDraggingPoint
      && r.elementRelativeDraggingPoint == s.elementRelativeDraggingPoint
  {
    var els := s.elements;
    var i := FindIndex(els, id);
    assert els == els[..i] + [els[i]] + els[i + 1..];
    assert multiset(els) == multiset(els[..i]) + multiset([els[i]]) + multiset(els[i + 1..]);
  }

  /** SELECT_ELEMENT with an id that is absent keeps the list and only sets the selection. */
  lemma SelectAbsentKeepsOrder(s: BoardState, id: string)
    requires !HasId(s.elements, id)
    ensures Reducer(s, SelectElement(id)) == s.(selectingId := Some(id))
  {
  }

  /** START_DRAGGING records the two press points and touches nothing else. */
  lemma StartDraggingSetsPoints(s: BoardState, relPos: Point, elPos: Point)
    ensures var r := Reducer(s, StartDragging(relPos, elPos));
      && r.lastDraggingPoint == Some(relPos)
      && r.elementRelativeDraggingPoint == Some(elPos)
      && r.elements == s.elements
      && r.selectingId == s.selectingId
  {
  }

  /**
   * SET_ELEMENT_POS keeps the list's length, ids and order, moves exactly the
   * elements whose id is the current selection, and ignores the payload id.
   */
  lemma SetElementPosOnlySelected(s: BoardState, payloadId: Option<string>, pos: Point)
    ensures var r := Reducer(s, SetElementPos(payloadId, pos));
      && |r.elements| == |s.elements|
      && (forall j :: 0 <= j < |s.elements| ==> r.elements[j].id == s.elements[j].id)
      && (forall j :: 0 <= j < |s.elements| && s.selectingId == Some(s.elements[j].id) ==>
            r.elements[j] == Element(s.elements[j].id, pos.x, pos.y))
      && (forall j :: 0 <= j < |s.elements| && s.selectingId != Some(s.elements[j].id) ==>
            r.elements[j] == s.elements[j])
      && r.(elements := s.elements) == s
      && r == Reducer(s, SetElementPos(None, pos))
  {
  }

  /** SET_ELEMENT_POS changes nothing when there is no selection or no element holds it. */
  lemma SetElementPosWithoutMatchIsNoop(s: BoardState, payloadId: Option<string>, pos: Point)
    requires s.selectingId.None? || !HasId(s.elements, s.selectingId.value)
    ensures Reducer(s, SetElementPos(payloadId, pos)) == s
  {
  }

  /**
   * CLEAR_FOCUS drops the selection and the corner point, keeps the list and
   * the pointer point, and a second CLEAR_FOCUS changes nothing.
   */
  lemma ClearFocusIdempotent(s: BoardState)
    ensures var r := Reducer(s, ClearFocus);
      && r.selectingId.None?
      && r.lastDraggingPoint.None?
      && r.elements == s.elements
      && r.elementRelativeDraggingPoint == s.elementRelativeDraggingPoint
      && Reducer(r, ClearFocus) == r
  {
  }

  /** An action of unknown type leaves the state as it was. */
  lemma UnrecognisedIsIdentity(s: BoardState, tag: string)
    ensures Reducer(s, Unrecognised(tag)) == s
  {
  }
}
