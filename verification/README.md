# Konva diagram editor: history reducer and interaction controller

This project models the state core of the Konva diagram editor.

- **History reducer** (`History`). The history holds two separate arrays of snapshots: `elements` (lists of diagram nodes) and `connections` (lists of connection lines). It also holds a cursor `index`. The reducer handles ADD, UNDO, REDO, DRAG and CONNECT. Any other tag leaves the state unchanged; the model represents such a tag by `Save`. The two arrays are modelled separately and exactly as the code writes them:
  - ADD below the last index cuts back `elements` only.
  - DRAG and CONNECT never cut back. They append at the end of both arrays and move the cursor one step.
- **Diagram context** (`DiagramContext`). This is the session state outside the history: the id counter, the editor mode and the pending connection source (`firstConnectedNode`). Every context operation (`addNode`, `drag`, `undo`, `redo`, `setEditorMode`, `startConnect`, `endConnect`) is a pure step. It returns the new controller state and the action it dispatches, if any. `Perform` and `Run` then feed that action to the reducer.
- **Canvas** (`Canvas`). This covers the toolbar's creation commands, the attribute merge done at drag end, and the mode gating of dragging and of mouse-down/up on a node.
- **Value types** (`DiagramTypes`). Nodes, connection lines, creation commands, action tags and editor modes. Positions and sizes are opaque integers.
- **Corrected history** (`LinearHistory`) and **counterexamples** (`Findings`). See "## Findings".
- **Scenarios** (`Scenarios`). Concrete whole-session runs from the initial state.

Main invariants proved:
- Every action keeps `0 <= index < len(elements) <= len(connections)`, so the current snapshots always exist.
- Node ids come only from the counter, so they are strictly increasing.
- Through the canvas, no snapshot ever holds a repeated id or an id the counter has not yet issued.
- No self-connection ever enters the history. The reducer itself accepts one; only `endConnect` rejects it.

Some behaviours of the code that a reader may not expect, all modelled as written:
- `setEditorMode` does not clear the pending connection source (`PendingSurvivesModeSwitch`).
- The reducer does not reject a connection with `id1 == id2` (`ReducerAcceptsSelfConnection`).
- Consider the run "add, add, drag, undo, undo". Three snapshots were written, so two undos reach the one-node snapshot, not the empty one (`AddTwiceDragUndo`).
- `undo` and `redo` do not clear the pending connection source either, so a connection can be dispatched from a node that is no longer on display (`StalePendingSourceAfterUndo`).

## Model

| member | source | states |
|---|---|---|
| DiagramTypes.Stamp | konva/src/context/types.tsx:25-31 | The node built from a creation command carries the given id and the command's position, size and type unchanged |
| DiagramTypes.Unstamp | konva/src/context/types.tsx:11-31 | A node without its id is a creation command with the same position, size and type |
| DiagramTypes.StampRoundTrip | konva/src/context/types.tsx:11-31 | A command is exactly a node without its id: stamping then unstamping gives the command back, and unstamping then restamping with the node's id gives the node back |
| History.TypeOf | konva/src/context/types.tsx:47-54 | The tag SAVE belongs only to the `Save` action, which stands for an action object no case of the reducer matches; CONNECT belongs only to a connect action |
| History.RemoveId | konva/src/context/reducer.tsx:94-96 | The drag filter keeps exactly the nodes whose id differs from the dragged one, and removes as many nodes as carried that id |
| History.RemoveIdAppend | konva/src/context/reducer.tsx:94-96 | Filtering a concatenation filters each part, so the kept nodes stay in their original order |
| History.RemoveIdAbsent | konva/src/context/reducer.tsx:94-96 | Filtering an id that does not occur returns the snapshot unchanged |
| History.HandleAdd | konva/src/context/reducer.tsx:55-72 | ADD keeps the snapshots up to the cursor, makes the current element list plus the new node the last element snapshot at `index + 1`, and moves the cursor there. Below the last index the connection array is left as it was; at the last index a copy of the current connection list is appended at its end |
| History.HandleUndo | konva/src/context/reducer.tsx:74-81 | UNDO sets the cursor to `max(index - 1, 0)` and leaves both snapshot arrays untouched |
| History.HandleRedo | konva/src/context/reducer.tsx:83-91 | REDO sets the cursor to `min(index + 1, len(elements) - 1)`, a clamp that looks at the element array only, and leaves both arrays untouched |
| History.HandleDrag | konva/src/context/reducer.tsx:93-104 | DRAG keeps both arrays as prefixes, cuts nothing back, and appends one snapshot to each. The new element snapshot is the current one with every node of the dragged id filtered out, followed by the dragged node: it holds exactly one node with that id, as its last node, plus every other node of the current snapshot. A copy of the current connection list is appended. The cursor moves to `index + 1` |
| History.HandleConnect | konva/src/context/reducer.tsx:106-116 | CONNECT appends a copy of the current element list and the current connection list plus the new line to the ends of both arrays, checks nothing about the line, and moves the cursor to `index + 1` |
| History.Reducer | konva/src/context/reducer.tsx:38-53 | Every action keeps `0 <= index < len(elements) <= len(connections)`; UNDO, REDO and an unrecognised tag never change the snapshot arrays; every write moves the cursor by one; a SAVE-tagged action returns the state unchanged |
| History.ReduceAll | konva/src/context/reducer.tsx:38-53 | Any run of actions from a valid history keeps the cursor and length invariant and adds at most one element snapshot per action |
| History.CurrentView | konva/src/context/DiagramContext.tsx:29-30 | The element and connection lists on display are snapshots stored in the history, and they exist for every valid history |
| History.UndoRedoRoundTrip | konva/src/context/reducer.tsx:74-91 | REDO after UNDO restores the state whenever the cursor is above 0. UNDO after REDO restores it whenever the cursor is below the last element snapshot |
| History.UndoRedoClamped | konva/src/context/reducer.tsx:74-91 | UNDO at index 0 and REDO at the last element snapshot change nothing |
| History.UndoAfterWriteRestoresView | konva/src/context/reducer.tsx:55-116 | After any ADD, DRAG or CONNECT, one UNDO shows exactly the element and connection lists shown before the write |
| History.WritesFromLastGrowByOne | konva/src/context/reducer.tsx:55-116 | Start at the last snapshot of two equally long arrays and apply writes with no UNDO in between. Each write then adds exactly one snapshot to each array, and the cursor stays on the last one |
| History.UniquePresentCountsOnce | konva/src/context/reducer.tsx:93-96 | In a snapshot without repeated ids, an id that is present occurs exactly once |
| History.RemoveIdKeepsUnique | konva/src/context/reducer.tsx:93-96 | Filtering one id out of a snapshot without repeated ids leaves a snapshot without repeated ids |
| History.DragKeepsSize | konva/src/context/reducer.tsx:93-104 | Dragging a node whose id the current snapshot holds once keeps the number of nodes, and keeps the ids unique |
| History.DragMovesToEnd | konva/src/context/reducer.tsx:93-104 | When the dragged id occurs once, at some place in the current snapshot, DRAG takes that node out and puts the dragged copy last; the nodes before and after it keep their order |
| History.ReducerAcceptsSelfConnection | konva/src/context/reducer.tsx:106-116 | The reducer appends a connection from a node to itself like any other |
| DiagramContext.InitialHistory | konva/src/context/DiagramContext.tsx:13-17 | The initial history is valid, holds one element snapshot and one connection snapshot, and shows no nodes and no lines |
| DiagramContext.InitialController | konva/src/context/DiagramContext.tsx:32-37 | The controller starts with the id counter at 1, in SELECT mode, with no connection pending |
| DiagramContext.InitialSession | konva/src/context/DiagramContext.tsx:13-37 | The editor starts with a valid history of exactly one element snapshot and one connection snapshot, showing no nodes and no lines, with ids starting at 1, in SELECT mode and with nothing pending |
| DiagramContext.AddNode | konva/src/context/DiagramContext.tsx:39-45 | `addNode` dispatches one ADD whose node carries the current counter as its id and the command's fields, leaves a counter strictly above that id, and changes neither the mode nor the pending source |
| DiagramContext.ForwardDrag | konva/src/context/DiagramContext.tsx:47-48 | `drag` forwards the node unchanged as one DRAG action and changes no controller state |
| DiagramContext.ForwardUndo | konva/src/context/DiagramContext.tsx:50 | `undo` forwards one UNDO and changes no controller state, so the id counter is kept |
| DiagramContext.ForwardRedo | konva/src/context/DiagramContext.tsx:52 | `redo` forwards one REDO and changes no controller state |
| DiagramContext.SetEditorMode | konva/src/context/DiagramContext.tsx:33-37 | Setting the mode dispatches nothing and keeps the pending source and the id counter |
| DiagramContext.EndConnect | konva/src/context/DiagramContext.tsx:62-73 | `endConnect` dispatches an action exactly when a source is pending and its id differs from the clicked node's. The action is the connection from the source to the clicked node, never a self-connection, and it clears the source. Otherwise the controller is unchanged |
| DiagramContext.StartConnect | konva/src/context/DiagramContext.tsx:54-60 | With nothing pending, `startConnect` records the node as the source and dispatches nothing; with a source pending it behaves exactly like `endConnect` |
| DiagramContext.Handle | konva/src/context/DiagramContext.tsx:39-73 | Only `addNode` advances the counter, by one; only the mode setter changes the mode; every ADD dispatched carries the counter's value; no dispatched connection joins a node to itself; no operation dispatches a SAVE-tagged action |
| DiagramContext.HandleIssuesCounter | konva/src/context/DiagramContext.tsx:39-45 | One operation creates at most one node, and that node's id lies between the counter before and the counter after |
| DiagramContext.NoCallDispatchesSave | konva/src/context/DiagramContext.tsx:39-73 | No run of context operations dispatches an action tagged SAVE, so the reducer's fall-through case is never reached through the context |
| DiagramContext.Dispatch | konva/src/context/DiagramContext.tsx:28 | Feeding the dispatched action, if any, to the reducer keeps the history valid; no action leaves it as it is |
| DiagramContext.Perform | konva/src/context/DiagramContext.tsx:28-73 | One context operation on a valid session leaves a valid history |
| DiagramContext.Run | konva/src/context/DiagramContext.tsx:28-73 | A run of operations keeps the history valid and dispatches at most one action per operation |
| DiagramContext.IssuedIdsIncrease | konva/src/context/DiagramContext.tsx:32-52 | Over any run of operations, undo and redo included, the ids of created nodes are strictly increasing. Each lies between the starting counter and the final counter. The counter advances exactly once per `addNode`, so no id is issued twice |
| DiagramContext.StartConnectPairing | konva/src/context/DiagramContext.tsx:54-73 | Call `startConnect` on node A, then again on A: nothing is dispatched and A stays pending. Call it on a node B with another id instead: it dispatches exactly the connection A to B and returns to the starting controller with nothing pending |
| DiagramContext.PendingSurvivesModeSwitch | konva/src/context/DiagramContext.tsx:33-37 | A pending source survives switching to SELECT and back, and the next `endConnect` on another node still connects it |
| DiagramContext.InitialSessionInv | konva/src/context/DiagramContext.tsx:13-37 | The initial session satisfies the session invariant: valid history, unique ids below the counter in every snapshot, no self-connection |
| DiagramContext.PerformKeepsSessionInv | konva/src/context/DiagramContext.tsx:39-73 | Every operation the canvas can make, where a drag carries the id of a node on display, keeps ids unique and below the counter in every element snapshot, and keeps self-connections out of every connection snapshot |
| Canvas.ToolbarCommand | konva/src/App.tsx:28-38 | A dropped palette item becomes a command at the mouse position shifted up by 56, of size 50 by 50, of the item's type |
| Canvas.Draggable | konva/src/App.tsx:114 | Nodes and the stage are draggable exactly when the editor is not in CONNECT mode |
| Canvas.Moved | konva/src/App.tsx:103-112 | The node sent at drag end keeps id, width, height and type and takes the new position |
| Canvas.Route | konva/src/App.tsx:114-132 | Mouse-down and mouse-up on a node call `startConnect` and `endConnect` exactly in CONNECT mode and otherwise do nothing; a drag end dispatches the moved node exactly when nodes are draggable (SELECT mode); dropping an entity or a relationship calls `addNode` with the toolbar's command for that type at the drop position; the undo, redo and mode buttons call `undo`, `redo` and the mode setter with the button's mode |
| Canvas.Act | konva/src/App.tsx:103-132 | A gesture on a valid session leaves a valid history |
| Canvas.ActEmits | konva/src/App.tsx:103-132 | A gesture dispatches at most one action |
| Canvas.RunGestures | konva/src/App.tsx:103-132 | A run of gestures keeps the history valid and dispatches at most one action per gesture |
| Canvas.EnabledGestureIsAllowed | konva/src/App.tsx:164-203 | A gesture aimed at a drawn node only makes calls the context allows, in particular a drag of a node on display |
| Canvas.GesturesKeepSessionInv | konva/src/App.tsx:103-132 | Any run of gestures on drawn nodes keeps the session invariant: unique ids below the counter in every element snapshot and no self-connection anywhere in the history |
| Canvas.ModeGating | konva/src/App.tsx:114-132 | In SELECT mode no gesture dispatches a connection; in CONNECT mode no gesture dispatches a drag |
| Canvas.DropCreatesNode | konva/src/App.tsx:28-38 | Dropping an entity or relationship advances the counter by one and shows, as the last node, a node of that type with the old counter as id, size 50 by 50 and the mouse's `y` shifted by -56 |
| Canvas.ClickPairConnects | konva/src/App.tsx:116-132 | In CONNECT mode with nothing pending, down(A), up(A), down(B), up(B) with different ids dispatches exactly one connection A to B, ends with nothing pending, and leaves the history one CONNECT further on |
| LinearHistory.Derived | konva/src/context/reducer.tsx:55-116 | The snapshot pair a write derives: ADD appends the node, CONNECT appends the line, and DRAG ends the list with the dragged node and keeps the connections |
| LinearHistory.Commit | konva/src/context/reducer.tsx:56-64 | Cutting both arrays back to the cursor and appending keeps them paired, keeps the snapshots up to the cursor, and shows the appended pair as the last one |
| LinearHistory.FixedReducer | konva/src/context/reducer.tsx:38-116 | The corrected reducer keeps both arrays equally long with the cursor inside, and moves the cursor exactly as the original on UNDO, REDO and unrecognised tags |
| LinearHistory.WriteShowsDerived | konva/src/context/reducer.tsx:55-116 | With paired truncation, every write shows the snapshot it derived and leaves nothing to redo |
| LinearHistory.FixedUndoAfterWrite | konva/src/context/reducer.tsx:55-116 | With paired truncation, undoing a write shows again what was shown before it |
| LinearHistory.DerivedKeepsIds | konva/src/context/reducer.tsx:93-104 | No write removes an id from the view: DRAG re-adds the id it filters out |
| LinearHistory.FixedKeepsClosed | konva/src/context/reducer.tsx:55-116 | With paired truncation, writes whose lines join nodes on display keep every line of every snapshot between nodes of that same snapshot |
| Findings.WriteAfterUndoShowsNextSnapshot | konva/src/context/reducer.tsx:93-116 | As written, a DRAG or CONNECT made below the last index shows the snapshot pair that followed the current one, not the one it wrote |
| Findings.DragAfterUndoShowsStaleSnapshot | konva/src/context/reducer.tsx:93-104 | Add nodes 1 and 2, undo, drag node 1: as written the view holds both nodes at their old places; the derived snapshot and the corrected reducer hold only the moved node |
| Findings.AddAfterUndoShowsDanglingConnection | konva/src/context/reducer.tsx:56-71 | Add 1 and 2, connect them, undo twice, add 3 and 4: as written the view shows nodes 1, 3 and 4 with a line to node 2, which is not shown |
| Findings.FixedAddAfterUndoShowsNoLine | konva/src/context/reducer.tsx:56-71 | The same actions on the corrected reducer show nodes 1, 3 and 4 and no line |
| Scenarios.StalePendingSourceAfterUndo | konva/src/context/DiagramContext.tsx:50-73 | Add nodes 1 and 2, switch to CONNECT, press node 2, undo, press node 1: the context dispatches the connection 2 to 1 although only node 1 is on display, and after a redo the view shows node 1 alone with a line to node 2 |
| Scenarios.AddTwiceUndoRedo | konva/src/context/DiagramContext.tsx:39-52 | From the initial session, add, add, undo shows the first node alone; a redo shows both nodes again with ids 1 and 2 |
| Scenarios.AddTwiceDragUndo | konva/src/context/DiagramContext.tsx:39-52 | From the initial session, add, add, drag, undo, undo shows the first node at its old place. A third undo empties the view, and a fourth changes nothing |

## Left out

- Rendering is not modelled: the stage, layers, rectangles, lines, colours and the highlighted stroke of the pending source. Window sizing and the line-endpoint centre arithmetic (konva/src/App.tsx:134-207) are left out too. The model keeps only one fact from that code: only entity and relationship nodes of the current view are drawn and can receive events.
- The React plumbing is not modelled: context creation, `useReducer`, `useState` and the provider. Asynchronous batching of state updates is also left out. The model treats each operation as one sequential, synchronous transition.
- `startConnect` accepts `null` in its type. The canvas never passes `null`, so the model takes a node and leaves the `null` argument out.
- JavaScript numbers are modelled as unbounded integers. Precision loss of the id counter beyond 2^53 is not modelled. Positions and sizes are opaque, with no fractional values.
- Stage panning in SELECT mode changes no editor state. Only `Draggable` records it.
- Toolbar button layout and styling, and the `preventDefault` call on drop, are left out.
- There is no code for rectangle selection, a selection set, geometry validation, an explicit cancel of a pending connection, or clearing the pending source on a mode switch. None of these is modelled.
- The indicator node component and the Next.js routing pages are not modelled: they hold no editor state.
- History.RemoveId: its own contract states which nodes are kept and how many are removed; their order is stated separately by `History.RemoveIdAppend` and `History.RemoveIdAbsent`.
- History.CurrentView: states only that the view is a stored snapshot pair; that it is the pair at the cursor is its definition.
- LinearHistory.FixedKeepsClosed: assumes every write joins nodes on display (`Legal`). The context does not guarantee this, because a pending connection source survives `undo` and `redo` (`Scenarios.StalePendingSourceAfterUndo`), so even the corrected reducer can store a line to a node that is not shown.
- LinearHistory.Derived: for DRAG, states the last node and the connections; the rest of the node list is `RemoveId`'s result.

## Findings

The session and canvas modules run the reducer as written, because that is the code the editor runs. `LinearHistory` defines the reducer as the ADD branch's truncation shows it was meant to work. The properties it was meant to have are proved about that reducer.

| source | as written | input that shows it | evidently intended | confidence | as-written member | corrected member |
|---|---|---|---|---|---|---|
| konva/src/context/reducer.tsx:93-116 | DRAG and CONNECT append at the end of both arrays without cutting back, then set the cursor to `index + 1` | add node 1, add node 2, undo, drag node 1: the view shows nodes 1 and 2 at their old places instead of the moved node 1 | cut both arrays back to `index + 1` before appending, so the cursor lands on the written snapshot | high; not executed | Findings.DragAfterUndoShowsStaleSnapshot | LinearHistory.WriteShowsDerived |
| konva/src/context/reducer.tsx:56-64 | ADD below the last index cuts back `elements` but not `connections` | add 1, add 2, connect 1-2, undo, undo, add 3, add 4: the view shows nodes 1, 3, 4 and a line to node 2, and the canvas's lookup of node 2 (konva/src/App.tsx:145-156) finds nothing | cut `connections` back together with `elements` | high; not executed | Findings.AddAfterUndoShowsDanglingConnection | LinearHistory.FixedKeepsClosed |
