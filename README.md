# Board store of the fun-draw canvas, in Dafny

fun-draw is a small canvas: the ADD button puts a 32-pixel box at a random spot of a
bounded container, and the user drags boxes with the pointer. All of its logic sits in
the board provider of `src/App.tsx`:

- the **reducer** of the board store, a five-action state machine over
  `BoardStateType` (an ordered list of `{id, x, y}` boxes, an optional `selectingId`
  and two optional points);
- the **pointer handlers**. A press on a box selects the box and records the box's
  bounding corner and the pointer position. A move puts the selected box at
  "pointer minus the press offset" and clamps it inside the container. A release
  clears the focus.

The model has five modules:

- `Wrappers` (`wrappers.dfy`): `Option`.
- `BoardStore` (`board_store.dfy`): the state, the actions, `Reducer` as a function,
  and one lemma per action.
- `SelectAsWritten` (`select_as_written.dfy`): SELECT_ELEMENT exactly as the code
  writes it, with JavaScript's `splice` start rule and the `undefined` that
  `push` may append.
- `PointerHandlers` (`pointer_handlers.dfy`): the move arithmetic (`Clamp`,
  `MovePos`), the actions each page event dispatches (`Dispatched`), the state after
  an event (`Step`), and lemmas over event sequences.
- `BoardProvider` (`board_provider.dfy`): a `Board` class. Its `state` field is
  replaced on every dispatch. Its handler methods mirror the provider's
  statements and are proved equal to `Step`.

Inputs the program takes from its environment are parameters:

- the DOM's bounding rectangles become `Point` / `Rect` values;
- the `data-elementid` attribute becomes an `Option<string>`;
- the random source becomes a `Draw`: a fresh id plus two rolls in `[0,200]`.

Coordinates are `int`.

Points where the code does something its names or its shape suggest otherwise; the model
follows the code:

- `lastDraggingPoint` holds the pressed box's bounding corner, despite its name: the
  handler's `currentTarget` is the box.
- SELECT_ELEMENT with a missing id on a non-empty list keeps the order: `findIndex`
  gives -1, `splice(-1, 1)` takes out the last box and `push` puts it back.
- CLEAR_FOCUS keeps `elementRelativeDraggingPoint`.
- So the two drag points are not always both present or both absent, though
  START_DRAGGING sets them together. The invariant that does hold is `DragConsistent`:
  a corner point implies a pointer point, and a selection implies a corner point and
  a non-empty id.
- The guards test JavaScript truthiness. A press on a target whose id is the empty
  string is ignored, and so is a move while `selectingId` is the empty string.
- The clamp is `Math.min(Math.max(0, v), extent - 33)`. In a container narrower than
  33 pixels it yields `extent - 33`, which is negative; the bounds lemmas therefore
  assume a container at least 33 pixels wide and high.

## Model

| member | source | states |
|---|---|---|
| BoardStore.RandomBetween | src/App.tsx:60-61 | given the roll floor(random·(e−s+1)) in [0, e−s], the result lies in [s, e] |
| BoardStore.FindIndex | src/App.tsx:83 | −1 exactly when no element has the id; otherwise an index holding the id with no earlier one holding it |
| BoardStore.MoveSelected | src/App.tsx:107-109 | same length and ids at every index; elements whose id is the selection take the new x,y; every other element is unchanged |
| BoardStore.SelectElements | src/App.tsx:83-87 | the SELECT_ELEMENT list keeps its length, ends with a box holding the id when one is present, and is the input when none is; the full reordering is in SelectPresentMovesToEnd and the permutation in SelectAsWritten.SelectElementsIsPermutation |
| BoardStore.Reducer | src/App.tsx:63-124 | only CREATE_ELEMENT changes the number of boxes (by one), only SELECT_ELEMENT and CLEAR_FOCUS touch the selection, only START_DRAGGING touches the pointer point; each case is stated in full by the lemmas in the rows below |
| BoardStore.CreateAppends | src/App.tsx:69-80 | CREATE_ELEMENT appends exactly one element with the drawn id and 0 ≤ x,y ≤ 200; previous elements and all other fields are unchanged |
| BoardStore.SelectPresentMovesToEnd | src/App.tsx:82-93 | with the id present: a permutation (length and multiset kept); the first element with the id is last; the elements before it stay in place and those after it shift down by one; selectingId becomes the id; the drag points are unchanged |
| BoardStore.SelectAbsentKeepsOrder | src/App.tsx:83-90 | with the id absent: the list is unchanged and only selectingId is set |
| BoardStore.StartDraggingSetsPoints | src/App.tsx:94-101 | START_DRAGGING sets lastDraggingPoint to relPos and elementRelativeDraggingPoint to elPos; the list and the selection are untouched |
| BoardStore.SetElementPosOnlySelected | src/App.tsx:102-111 | SET_ELEMENT_POS keeps length, ids and order; exactly the elements whose id equals selectingId get the new x,y; the others and all other fields are unchanged; the payload id makes no difference |
| BoardStore.SetElementPosWithoutMatchIsNoop | src/App.tsx:105-110 | with no selection, or a selection no element holds, SET_ELEMENT_POS returns the state unchanged |
| BoardStore.ClearFocusIdempotent | src/App.tsx:112-118 | CLEAR_FOCUS clears selectingId and lastDraggingPoint, keeps elements and elementRelativeDraggingPoint, and a second CLEAR_FOCUS changes nothing |
| BoardStore.UnrecognisedIsIdentity | src/App.tsx:119-123 | an action of any other type returns the state unchanged |
| SelectAsWritten.SpliceStart | src/App.tsx:84 | splice's start: a start within the list is kept; a negative start counts back from the length and stops at 0; a start past the end is the end |
| SelectAsWritten.SelectSlotsAsWritten | src/App.tsx:83-87 | the written find, splice and push keep the list's length and leave no `undefined` exactly when the list was not empty; on the empty list it grows to one slot |
| SelectAsWritten.EmptySelectPushesUndefined | src/App.tsx:83-87 | as written, SELECT_ELEMENT on the empty list yields the one-slot list [undefined] (the list grows) |
| SelectAsWritten.AsWrittenAgreesOnNonEmpty | src/App.tsx:83-87 | on every non-empty list the written splice-and-push equals the model's SelectElements, including a missing id, where the last element is taken out and pushed back |
| SelectAsWritten.SelectElementsIsPermutation | src/App.tsx:83-87 | the model's SELECT_ELEMENT list is always a permutation of the input, the empty list included |
| PointerHandlers.Dispatched | src/App.tsx:164-233 | a press dispatches nothing exactly when the target has no truthy id, otherwise SELECT_ELEMENT with that id followed by START_DRAGGING; a move at most one SET_ELEMENT_POS carrying the current selection; a release or ADD exactly one action; never an action of unknown type |
| PointerHandlers.Step | src/App.tsx:127-233 | only ADD adds a box and no event removes one; after a release nothing is selected and the corner point is gone; the per-event lemmas below state the rest |
| PointerHandlers.Clamp | src/App.tsx:221-222 | the result is at most the limit; at least 0 when the limit is non-negative; the value itself when it lies in [0, limit]; 0 below; the limit above or when the limit is negative |
| PointerHandlers.MovePos | src/App.tsx:201-224 | with width, height ≥ 33 the position lies in [0, width−33] × [0, height−33]; when corner − container + (pointer − press point) lies in range it is that value |
| PointerHandlers.PressStartsDrag | src/App.tsx:164-179 | a press on a target with a non-empty id dispatches SELECT_ELEMENT then START_DRAGGING: the list is reordered by the selection, selectingId is the id, the corner and pointer points are recorded, and a box with that id on the board ends up last |
| PointerHandlers.PressWithoutIdIsNoop | src/App.tsx:169-172 | a press whose target has no id, or an empty one, changes nothing |
| PointerHandlers.MoveWithoutDragIsNoop | src/App.tsx:183-190 | without a truthy selectingId, both drag points and a mounted container, a move changes nothing |
| PointerHandlers.ReleaseClearsFocus | src/App.tsx:227-233 | a release clears selectingId and lastDraggingPoint and nothing else; a second release changes nothing |
| PointerHandlers.MoveAfterReleaseIsNoop | src/App.tsx:183-190 | any move right after a release leaves the released state as it is |
| PointerHandlers.MoveKeepsBoxInside | src/App.tsx:181-225 | in a container at least 33 wide and high, a move leaves every selected box inside [0, width−33] × [0, height−33]; other boxes, ids, order and the drag fields are unchanged |
| PointerHandlers.DragPreservesOffset | src/App.tsx:164-225 | press then move: the box brought to the top is at its press corner relative to the container plus the pointer's displacement, whenever that is inside the container |
| PointerHandlers.StepKeepsDragConsistent | src/App.tsx:94-117 | every page event keeps "corner point ⇒ pointer point" and "selection ⇒ corner point and a non-empty id" |
| PointerHandlers.MoveActsIffSelecting | src/App.tsx:183-190 | in a coherent state with the container mounted, a move dispatches an action exactly when a box is selected |
| PointerHandlers.StepKeepsSelectionOnBoard | src/App.tsx:82-117 | when presses come from boxes on the board, every event keeps the selection naming a box on the board |
| PointerHandlers.DragScenario | src/App.tsx:164-233 | 400×400 container at the origin, box created at (10,10), press at (15,15), move to (115,115): the box is at (110,110); after the release it stays there with no selection and no corner point |
| BoardProvider.Board.constructor | src/App.tsx:37-39 | the store starts from the empty board with nothing selected |
| BoardProvider.Board.Dispatch | src/App.tsx:127 | the new state is the reducer applied to the old state and the action |
| BoardProvider.Board.SetSelectedElementId | src/App.tsx:82-93 | find, splice and push, rendered as sequence operations on a local copy of the list followed by one assignment of the field, give the reducer's SELECT_ELEMENT state |
| BoardProvider.SpliceAndPushIsSelect | src/App.tsx:83-87 | splicing out at the found index (or at the last slot when the id is missing) and pushing the removed box gives the model's SELECT_ELEMENT list |
| BoardProvider.Board.SetDraggingStartPositions | src/App.tsx:145-153 | the state is the reducer's START_DRAGGING state |
| BoardProvider.Board.SetElementPos | src/App.tsx:154-162 | dispatches SET_ELEMENT_POS with the current selection as payload id |
| BoardProvider.Board.CreateElement | src/App.tsx:130-134 | the state after ADD is Step of the old state; the drag fields stay coherent |
| BoardProvider.Board.HandleMouseDown | src/App.tsx:164-179 | the guarded select-then-start sequence yields Step of the old state for the press; coherence is kept |
| BoardProvider.Board.HandleMouseMove | src/App.tsx:181-225 | the guard, the offset arithmetic and the two clamping reassignments yield Step of the old state for the move; coherence is kept; without a selection the state is unchanged, and with a selection and a mounted container exactly one SET_ELEMENT_POS is dispatched |
| BoardProvider.Board.HandleMouseUp | src/App.tsx:227-233 | the state is Step of the old state for a release; coherence is kept |
| BoardProvider.DragScenarioOnBoard | src/App.tsx:126-233 | running the drag scenario through the object's methods leaves the one box at (110,110) with nothing selected |

## Findings

| source | as written | input that shows it | evidently intended | confidence | as-written member | corrected member |
|---|---|---|---|---|---|---|
| src/App.tsx:83-87 | `findIndex` gives −1 on the empty list; `splice(-1, 1)` removes nothing, so `[0]` of its result is `undefined`, and `push` appends that `undefined` | state `{elements: []}`, action SELECT_ELEMENT with id "a": the list becomes `[undefined]` | SELECT_ELEMENT with a missing id leaves the list as it is | not executed; unlikely to occur in the UI, because a press comes from a box that is rendered, so the list is not empty | SelectAsWritten.EmptySelectPushesUndefined | SelectAsWritten.SelectElementsIsPermutation |

The rest of the model uses the corrected `BoardStore.SelectElements`.
`SelectAsWritten.AsWrittenAgreesOnNonEmpty` shows that it differs from the written
code only on the empty list.

## Left out

- React plumbing is not modelled: the context, the provider component, `useReducer`, `useRef` and the JSX of `App` and `Main`. The store is the `Board` object's `state` field.
- The handlers read the state of the last render, which can lag behind queued dispatches. The model reads the current state.
- Aliasing is not modelled. SELECT_ELEMENT splices the previous state's own array in place, so the old state object changes too. The model builds a new list and leaves the old state as it was.
- What follows an `undefined` slot is not modelled. A later `findIndex` would read `.id` of `undefined` and throw. The finding above exhibits the slot, and the model then uses the corrected list.
- Board.SetSelectedElementId: on the empty list it leaves the list empty (the corrected behaviour), not `[undefined]`.
- Floating point is not modelled. DOM coordinates are JavaScript numbers; here they are integers.
- `generateRandomId`'s hex formatting of `Math.random()` is not modelled, nor is the floating-point draw itself. The model takes a `Draw` of a fresh id and two integer rolls in [0,200]. Id uniqueness is not enforced by the code and is not claimed.
- Actions are typed. A malformed or missing payload, which would throw in JavaScript, is not modelled.
- `preventDefault` and `console.log` have no effect on the state and are not modelled.
- `src/Board.tsx` is rendering and colour choice only. Its commented-out block is not modelled. `tailwind.config.cjs` is styling only.
- Dead code is not modelled: the expression statement at src/App.tsx:200 and the commented-out first boundary method at src/App.tsx:210-218.
