# A4 word composer: pagination and the placement box

This project models two parts of the A4 word composer in Dafny and proves properties about them.

1. **The pagination effect** (`src/components/A4WordComposer.jsx`). It splits the converted document's block elements into A4 pages. The effect walks the elements in document order. It appends a clone of each element to a hidden measuring container. When the container's rendered height is strictly greater than the placement box's height, it closes the current page and the element starts a new one.
   - `Pagination.PaginateNodes` is that loop: a `while` loop over `seq<Node>` with the two accumulators, `result` and `page`.
   - Rendering is abstracted as a deterministic oracle `Oracle = (seq<Node>, int) -> nat`. It gives the height of a group of elements at a given width. The font size and the 1.4 line height of one run are fixed inside the oracle.
   - Pages are sequences of elements, not serialized HTML.
   - The loop is proved equal to the recursive specification `Fill`/`Paginate`.
   - `IsGreedyLayout` describes the result declaratively, with no reference to the loop. It says:
     - the pages concatenate to the input;
     - every element added to a page that already holds elements fits, and so does every element of page 0; the first element of a later page is placed without a test, so a later page holding one element may overflow;
     - every break is forced;
     - only the first page can be empty, and the last page never is.
   - Two lemmas tie the two together. `FillIsGreedy` shows that `Fill` always meets the description. `GreedyLayoutIsFill` shows that only `Fill`'s result meets it. Together they give determinism: the description fixes the pages uniquely.
2. **The draggable, resizable box** (`DraggableResizableBox`). This is the content region on the first page. Its width and height are the budget for pagination.
   - The class `PlacementBox.Box` holds the geometry, the two mode flags `dragging` and `resizing`, the `disabled` flag and the press-time snapshot.
   - `BeginDrag`, `BeginResize`, `Move` and `Up` are the two `onMouseDown` handlers and the window's `mousemove`/`mouseup` handlers.
   - The new geometry is the pure function `MovedRect`, built from `Dragged` and `Resized`.
   - The class invariant `Valid()` keeps width and height at least 100 (`MinSize`) after any sequence of calls.
   - The client method `DragThenResize` runs one scenario from the initial geometry (80, 120, 630, 850). A drag by (+50, -30) gives (130, 90, 630, 850). A resize by (-600, 0) then clamps the width to 100. A later resize gives (130, 90, 770, 910). It also shows that a second release and a move while idle change nothing.

The intended behaviour of the composer differs from the code in a few places. The model follows the code.
- **No splitting or auto-fit.** The code has no word-level paragraph splitting, no FatalFit report and no font-size auto-fit search. None of these is modelled.
- **Leading empty page.** When the very first element alone overflows, the code closes an empty page before it (lines 149 and 155-158). So the result starts with an empty page, although pages are meant never to be empty.
- **Oversized elements.** An element that overflows even alone gets its own page after the first one. Such a page is not flagged. An oversized element is also never split.
- **Disabled box.** The press on the box body is not gated by `disabled` (lines 61-65). So `BeginDrag` starts a drag even when the box is disabled, but `Move` then does nothing (line 15). The resize handle is not rendered while disabled (line 68), so `BeginResize` does nothing then.
- **`disabled` is never set.** The composer's only use of the box (line 240) does not pass `disabled`, so the prop is always undefined and the box is always enabled. Export (lines 169-213) does not freeze the box either, so the dashed border and the resize handle are drawn into the page-0 image. The model keeps the flag because it is part of the component's props. `SetDisabled` models a change to that prop.
- **Both modes at once.** The two mode flags are independent booleans, so both can be on. For example, a second mouse button can press the handle during a drag. In that case the resize update is issued after the drag update, and it is the one that remains (lines 17-33).

## Model

| member | source | states |
|---|---|---|
| `Pagination.PaginateNodes` | src/components/A4WordComposer.jsx:147-165 | The measuring loop returns exactly `Paginate(nodes)`. That result is the greedy layout of `nodes`, and its pages concatenate back to `nodes`. |
| `Pagination.FillIsGreedy` | src/components/A4WordComposer.jsx:152-164 | For any open page and any remaining elements, the pages produced are a greedy layout. Their concatenation is the input, and the first page begins with the open page. Pages after the first and the last page are non-empty. Every element added to a non-empty page fits. Every break is forced by an overflow. |
| `Pagination.GreedyLayoutIsFill` | src/components/A4WordComposer.jsx:152-164 | Any page sequence that satisfies the greedy-layout description is exactly the one the loop produces, so the description is unique. |
| `Pagination.PaginateIsTheGreedyLayout` | src/components/A4WordComposer.jsx:152-164 | Determinism: for a given oracle, budget and document, a page sequence is a greedy layout if and only if it equals the loop's result. |
| `Pagination.PagesCoverDocument` | src/components/A4WordComposer.jsx:152-164 | Concatenating the pages in order gives exactly the input elements, so no element is lost, duplicated or reordered. |
| `Pagination.PagesFitBudget` | src/components/A4WordComposer.jsx:154-155 | A page with two or more elements measures at most the box height. So does the first page whenever it is non-empty. Equality fits; only a strictly greater height breaks. |
| `Pagination.OverflowingNodeOpensNextPage` | src/components/A4WordComposer.jsx:155-162 | Every page after the first is non-empty. Its first element is the one that overflowed the previous page: the previous page plus that element measures more than the box height. |
| `Pagination.EmptyPages` | src/components/A4WordComposer.jsx:149-164 | There are no pages if and only if the document is empty. Only page 0 can be empty, and it is empty exactly when the first element alone overflows. |
| `Pagination.PageCountBounds` | src/components/A4WordComposer.jsx:149-164 | A non-empty document has at least one page. The page count is at most the element count plus one, and at most the element count when page 0 is non-empty. |
| `Pagination.LeadingEmptyPageExample` | src/components/A4WordComposer.jsx:149-158 | With 900-pixel elements and an 850-pixel box, two elements give an empty page, then one page for each element. |
| `PlacementBox.Capture` | src/components/A4WordComposer.jsx:64 | The press-time snapshot holds the box geometry at the press and the pointer position of the press. |
| `PlacementBox.Dragged` | src/components/A4WordComposer.jsx:17-23 | While dragging, the box moves by exactly the pointer's displacement since the press, and keeps its press-time width and height. |
| `PlacementBox.Resized` | src/components/A4WordComposer.jsx:26-32 | While resizing, x and y stay at their press-time values. Width is the least value that is at least 100 and at least the press-time width plus the horizontal displacement. Height is defined the same way from the vertical displacement. |
| `PlacementBox.MovedRect` | src/components/A4WordComposer.jsx:14-34 | When disabled or idle, a move leaves the geometry unchanged. While resizing, the resize geometry results, even if a drag is also on. While only dragging, the drag geometry results. |
| `PlacementBox.MoveForgetsEarlierMoves` | src/components/A4WordComposer.jsx:18-32 | Path independence: while a mode is active and the box is enabled, the geometry after a move does not depend on the geometry before it. |
| `PlacementBox.BackToPressPointRestores` | src/components/A4WordComposer.jsx:18-32 | Moving the pointer back to the press point restores the press-time geometry. This holds for a drag, and for a resize that started at least 100 wide and high. |
| `PlacementBox.DragsCompose` | src/components/A4WordComposer.jsx:18-23 | A drag from a snapshot taken at the end of an earlier drag equals one drag from the original press to the final pointer. |
| `PlacementBox.MoveKeepsMinSize` | src/components/A4WordComposer.jsx:26-32 | When the snapshot and the current box are at least 100 wide and high, any move keeps width and height at least 100. |
| `PlacementBox.Box.constructor` | src/components/A4WordComposer.jsx:8-11 | The box starts idle, with no snapshot, at the owner's initial geometry (80, 120, 630, 850). This geometry comes from line 101. |
| `PlacementBox.Box.BeginDrag` | src/components/A4WordComposer.jsx:61-65 | A press whose target is the handle changes nothing. Any other press sets dragging and stores the snapshot of the current geometry and pointer. It leaves resizing as it was. |
| `PlacementBox.Box.BeginResize` | src/components/A4WordComposer.jsx:68-75 | When enabled, a press on the handle sets resizing and stores the snapshot, and leaves dragging as it was. When disabled, there is no handle and nothing changes. |
| `PlacementBox.Box.Move` | src/components/A4WordComposer.jsx:14-34 | The new geometry is `MovedRect` of the modes, the snapshot and the pointer. Nothing else changes, and width and height stay at least 100. |
| `PlacementBox.Box.Up` | src/components/A4WordComposer.jsx:36-39 | Release sets both modes false and changes nothing else, so releasing twice is the same as releasing once. |
| `PlacementBox.Box.SetDisabled` | src/components/A4WordComposer.jsx:8 | The component's `disabled` prop changes, and nothing else does. The composer never sets it (line 240). |

## Left out

- **Library and file loading.** The CDN script loading and its readiness counter (lines 105-121) are not modelled. They are I/O.
- **Document and template import.** DOCX conversion (lines 123-128) and template image loading (lines 130-135) are not modelled. They are foreign libraries and file I/O.
- **Export.** PDF and image export (lines 169-213) is not modelled. It is rasterization, timers, downloads and async sequencing.
- **Real DOM measurement.** `innerHTML`, `cloneNode`, `scrollHeight`, the CSS width, font size and line height, and the `outerHTML` serialization of pages are replaced by the oracle and by sequences of element values. A clone is modelled as the element value itself.
- **React plumbing.** Rendering, `useEffect` re-triggering on document, font-size or box changes (line 166), the early return on an empty document (line 139), and registering and removing the window listeners (lines 41-46) are not modelled.
- **Stale handler state.** In the code, the handlers see the mode flags of the last render, because React's state updates are asynchronous. The model applies every update immediately.
- **Box geometry ownership.** The box's geometry belongs to the parent component's state, and the box writes it through `onUpdate`. The model keeps it as the `rect` field of `Box` and starts it at the parent's initial value (line 101).
- **Monotone page count.** The claim that a larger box height never gives more pages needs extra assumptions about the oracle (heights growing with content). It is not stated.
- **Numbers are integers.** JavaScript numbers are doubles: `clientX`/`clientY`, the box's `x`, `y`, `width` and `height`, and `box.height` in the comparison. The model uses `int` for all of them (`Rect`, `Snapshot`, `Budget`, and the oracle's width argument). Fractional values are therefore not modelled. The effect is bounded. On integer inputs, the drag and resize arithmetic and `Math.max` give the same results as in the code. `scrollHeight` is an integer, so `scrollHeight > h` holds exactly when `scrollHeight > floor(h)`; a fractional box height acts like its floor.
