/**
 * The board provider as an object: the store's current state is a field that
 * every dispatch replaces, and the handlers check the state, compute the new
 * position step by step and dispatch, as the provider does.
 */
module BoardProvider {
  import opened Wrappers
  import opened BoardStore
  import opened PointerHandlers

  class Board {
    var state: BoardState

    /** The drag fields are coherent; every page event keeps this, and with it a move acts exactly when a box is selected. */
    ghost predicate Valid()
      reads this
    {
      DragConsistent(state)
    }

    constructor ()
      ensures Valid()
      ensures state == DefaultState
    {
      state := DefaultState;
    }

    /** `dispatch`: the reducer replaces the state. */
    method Dispatch(a: Action)
      modifies this
      ensures state == Reducer(old(state), a)
    {
      state := Reducer(state, a);
    }

    /**
     * SELECT_ELEMENT carried out on the list field: find the index, splice
     * the element out (a missing id splices from the end) and push it back.
     * On the empty list nothing is spliced and nothing is pushed.
     */
    method SetSelectedElementId(id: string)
      modifies this
      ensures state == Reducer(old(state), SelectElement(id))
    {
      var elements := state.elements;
      var index := FindIndex(elements, id);
      var k := if index < 0 then |elements| - 1 else index;
      SpliceAndPushIsSelect(elements, id, k);
      if 0 <= k {
        var element := elements[k];
        elements := elements[..k] + elements[k + 1..];
        elements := elements + [element];
      }
      state := state.(selectingId := Some(id), elements := elements);
    }

    method SetDraggingStartPositions(relPos: Point, elPos: Point)
      modifies this
      ensures state == Reducer(old(state), StartDragging(relPos, elPos))
    {
      Dispatch(StartDragging(relPos, elPos));
    }

    /** SET_ELEMENT_POS, with the current selection as the payload id. */
    method SetElementPos(pos: Point)
      modifies this
      ensures state == Reducer(old(state), Action.SetElementPos(old(state).selectingId, pos))
    {
      Dispatch(Action.SetElementPos(state.selectingId, pos));
    }

    /** The ADD button. */
    method CreateElement(d: Draw)
      requires Valid()
      modifies this
      ensures Valid()
      ensures state == Step(old(state), Create(d))
    {
      ApplyOne(state, Action.CreateElement(d));
      StepKeepsDragConsistent(state, Create(d));
      Dispatch(Action.CreateElement(d));
    }

    /** Pointer down on a box whose `data-elementid` is `target`, with bounding corner `corner`. */
    method HandleMouseDown(target: Option<string>, corner: Point, client: Point)
      requires Valid()
      modifies this
      ensures Valid()
      ensures state == Step(old(state), Press(target, corner, client))
    {
      StepKeepsDragConsistent(state, Press(target, corner, client));
      if target.None? || target.value == "" {
        return;
      }
      ApplyTwo(state, SelectElement(target.value), StartDragging(corner, client));
      SetSelectedElementId(target.value);
      SetDraggingStartPositions(corner, client);
    }

    /** Pointer move anywhere on the page; `root` is the container's rectangle when it is mounted. */
    method HandleMouseMove(client: Point, root: Option<Rect>)
      requires Valid()
      modifies this
      ensures Valid()
      ensures state == Step(old(state), Move(client, root))
      ensures old(state).selectingId.None? ==> state == old(state)
      ensures root.Some? && old(state).selectingId.Some? ==> |Dispatched(old(state), Move(client, root))| == 1
    {
      if root.Some? {
        MoveActsIffSelecting(state, client, root.value);
      }
      StepKeepsDragConsistent(state, Move(client, root));
      if state.selectingId.None? || state.selectingId.value == ""
        || state.lastDraggingPoint.None? || state.elementRelativeDraggingPoint.None? || root.None?
      {
        return;
      }
      var parent := root.value;
      var last := state.lastDraggingPoint.value;
      var rel := state.elementRelativeDraggingPoint.value;
      var x := client.x - (rel.x - last.x) - parent.left;
      var y := client.y - (rel.y - last.y) - parent.top;
      x := Min(Max(0, x), parent.width - BoxSize - 1);
      y := Min(Max(0, y), parent.height - BoxSize - 1);
      assert Point(x, y) == MovePos(client, rel, last, parent);
      ApplyOne(state, Action.SetElementPos(state.selectingId, Point(x, y)));
      SetElementPos(Point(x, y));
    }

    /** Pointer up anywhere on the page. */
    method HandleMouseUp()
      requires Valid()
      modifies this
      ensures Valid()
      ensures state == Step(old(state), Release)
    {
      StepKeepsDragConsistent(state, Release);
      ApplyOne(state, ClearFocus);
      Dispatch(ClearFocus);
    }
  }

  /** Splicing out at `k` (the found index, or the last slot when the id is missing) and pushing is SelectElements. */
  lemma SpliceAndPushIsSelect(els: seq<Element>, id: string, k: int)
    requires k == (if FindIndex(els, id) < 0 then |els| - 1 else FindIndex(els, id))
    ensures 0 <= k ==> (els[..k] + els[k + 1..]) + [els[k]] == SelectElements(els, id)
    ensures k < 0 ==> els == SelectElements(els, id)
  {
    if 0 <= k && FindIndex(els, id) < 0 {
      assert els == els[..k] + [els[k]];
    }
  }

  /**
   * The drag scenario run through the object: after the press, the move and
   * the release the one box is at (110,110) and nothing is selected.
   */
  method DragScenarioOnBoard(id: string) returns (b: Board)
    requires id != ""
    ensures b.state.elements == [Element(id, 110, 110)]
    ensures b.state.selectingId.None?
  {
    b := new Board();
    b.CreateElement(Draw(id, 10, 10));
    b.HandleMouseDown(Some(id), Point(10, 10), Point(15, 15));
    b.HandleMouseMove(Point(115, 115), Some(Rect(0, 0, 400, 400)));
    b.HandleMouseUp();
    DragScenario(id);
  }
}
