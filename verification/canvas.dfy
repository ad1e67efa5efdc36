/**
 The canvas and toolbar as far as they drive the diagram context: the
 toolbar's creation commands, the drag-end attribute merge, and the mode
 gating of dragging and of mouse-down/up on a node.
 */
module Canvas {
  import opened DiagramTypes
  import opened History
  import opened DiagramContext

  /** Height of the toolbar above the canvas; a dropped node's mouse
      position is shifted up by it. */
  const ToolbarHeight: int := 56

  /** Width and height of every node the toolbar creates. */
  const NewNodeSize: int := 50

  /** The user actions the canvas and toolbar turn into context calls. */
  datatype Gesture =
    | DropEntity(clientX: int, clientY: int)
    | DropRelationship(clientX: int, clientY: int)
    | UndoClick
    | RedoClick
    | ModeClick(mode: EditorMode)
    | DragEnd(node: DiagramNode, x: int, y: int)
    | MouseDown(node: DiagramNode)
    | MouseUp(node: DiagramNode)

  /** The command the toolbar issues when a palette item of kind `t` is
      dropped at mouse position (`clientX`, `clientY`). */
  function ToolbarCommand(t: ElementType, clientX: int, clientY: int): (cmd: CreateNodeCommand)
    ensures cmd.x == clientX && cmd.y == clientY - 56
    ensures cmd.width == 50 && cmd.height == 50 && cmd.elementType == t
  {
    CreateNodeCommand(clientX, clientY - ToolbarHeight, NewNodeSize, NewNodeSize, t)
  }

  /** Nodes and the stage can be dragged exactly when no connection is
      being drawn. */
  function Draggable(m: EditorMode): (b: bool)
    ensures b <==> m != EditorMode.CONNECT
  {
    m == SELECT
  }

  /** The node sent with DRAG after a drag ends at (`x`, `y`): a copy of
      `node` in which only the position is replaced. */
  function Moved(node: DiagramNode, x: int, y: int): (r: DiagramNode)
    ensures r.id == node.id && r.x == x && r.y == y
    ensures Unstamp(r) == Unstamp(node).(x := x, y := y)
  {
    node.(x := x, y := y)
  }

  /** The context call a gesture makes in mode `m`, if any. */
  function Route(m: EditorMode, g: Gesture): (call: Option<Call>)
    ensures (g.MouseDown? || g.MouseUp?) ==> (call.Some? <==> m == EditorMode.CONNECT)
    ensures g.MouseDown? && call.Some? ==> call.value == StartConnectCall(g.node)
    ensures g.MouseUp? && call.Some? ==> call.value == EndConnectCall(g.node)
    ensures g.DragEnd? ==> (call.Some? <==> Draggable(m))
    ensures g.DragEnd? && call.Some? ==> call.value == DragCall(Moved(g.node, g.x, g.y))
    ensures g.DropEntity? ==> call == Some(AddNodeCall(ToolbarCommand(Entity, g.clientX, g.clientY)))
    ensures g.DropRelationship? ==>
              call == Some(AddNodeCall(ToolbarCommand(Relationship, g.clientX, g.clientY)))
    ensures g.UndoClick? ==> call == Some(UndoCall)
    ensures g.RedoClick? ==> call == Some(RedoCall)
    ensures g.ModeClick? ==> call == Some(SetModeCall(g.mode))
  {
    match g
    case DropEntity(cx, cy) => Some(AddNodeCall(ToolbarCommand(Entity, cx, cy)))
    case DropRelationship(cx, cy) => Some(AddNodeCall(ToolbarCommand(Relationship, cx, cy)))
    case UndoClick => Some(UndoCall)
    case RedoClick => Some(RedoCall)
    case ModeClick(mode) => Some(SetModeCall(mode))
    case DragEnd(node, x, y) =>
      if Draggable(m) then Some(DragCall(Moved(node, x, y))) else None
    case MouseDown(node) =>
      if m == EditorMode.CONNECT then Some(StartConnectCall(node)) else None
    case MouseUp(node) =>
      if m == EditorMode.CONNECT then Some(EndConnectCall(node)) else None
  }

  /** Only entity and relationship nodes of the current view are drawn, so
      only they receive mouse and drag events. */
  predicate Rendered(view: seq<DiagramNode>, node: DiagramNode) {
    node in view && (node.elementType == Entity || node.elementType == Relationship)
  }

  /** A gesture that can happen: one aimed at a node aims at a drawn node. */
  predicate Enabled(s: Session, g: Gesture)
    requires Valid(s.history)
  {
    (g.DragEnd? || g.MouseDown? || g.MouseUp?) ==>
      Rendered(CurrentView(s.history).elements, g.node)
  }

  /** The session after gesture `g`. */
  function Act(s: Session, g: Gesture): (r: Session)
    requires Valid(s.history)
    ensures Valid(r.history)
  {
    match Route(s.controller.editorMode, g)
    case None => s
    case Some(call) => Perform(s, call)
  }

  /** The actions gesture `g` dispatches. */
  function ActEmits(s: Session, g: Gesture): (actions: seq<Action>)
    ensures |actions| <= 1
  {
    match Route(s.controller.editorMode, g)
    case None => []
    case Some(call) => Emitted(Handle(s.controller, call).dispatched)
  }

  function RunGestures(s: Session, gs: seq<Gesture>): (t: Trace)
    requires Valid(s.history)
    ensures Valid(t.session.history)
    ensures |t.emitted| <= |gs|
    decreases |gs|
  {
    if |gs| == 0 then Trace(s, [])
    else
      var rest := RunGestures(Act(s, gs[0]), gs[1..]);
      Trace(rest.session, ActEmits(s, gs[0]) + rest.emitted)
  }

  /** Every gesture of `gs` is enabled in the session it meets. */
  predicate EnabledRun(s: Session, gs: seq<Gesture>)
    requires Valid(s.history)
    decreases |gs|
  {
    |gs| > 0 ==> Enabled(s, gs[0]) && EnabledRun(Act(s, gs[0]), gs[1..])
  }

  /** An enabled gesture makes only calls the context allows. */
  lemma EnabledGestureIsAllowed(s: Session, g: Gesture)
    requires Valid(s.history) && Enabled(s, g)
    ensures Route(s.controller.editorMode, g).Some? ==>
              Allowed(s, Route(s.controller.editorMode, g).value)
  {
    if g.DragEnd? && Route(s.controller.editorMode, g).Some? {
      assert Moved(g.node, g.x, g.y).id == g.node.id;
    }
  }

  /** Any run of enabled gestures from a session satisfying the invariant
      keeps it: ids stay unique in every snapshot and below the counter, and
      no self-connection ever enters the history. */
  lemma {:induction false} GesturesKeepSessionInv(s: Session, gs: seq<Gesture>)
    requires SessionInv(s) && EnabledRun(s, gs)
    ensures SessionInv(RunGestures(s, gs).session)
    decreases |gs|
  {
    if |gs| > 0 {
      EnabledGestureIsAllowed(s, gs[0]);
      var route := Route(s.controller.editorMode, gs[0]);
      if route.Some? {
        PerformKeepsSessionInv(s, route.value);
      }
      GesturesKeepSessionInv(Act(s, gs[0]), gs[1..]);
    }
  }

  /** In SELECT mode no gesture dispatches a connection, and in CONNECT mode
      no gesture dispatches a drag. */
  lemma ModeGating(s: Session, g: Gesture)
    requires Valid(s.history)
    ensures s.controller.editorMode == SELECT ==>
              forall a :: a in ActEmits(s, g) ==> !a.Connect?
    ensures s.controller.editorMode == EditorMode.CONNECT ==>
              forall a :: a in ActEmits(s, g) ==> !a.Drag?
  {
  }

  /** Dropping a palette item creates one node of that kind, with the next
      id and the toolbar's fixed size and offset, as the last node shown. */
  lemma DropCreatesNode(s: Session, cx: int, cy: int)
    requires Valid(s.history)
    ensures var r := Act(s, DropEntity(cx, cy));
      && r.controller.idCounter == s.controller.idCounter + 1
      && Last(CurrentView(r.history).elements)
           == DiagramNode(s.controller.idCounter, cx, cy - 56, 50, 50, Entity)
    ensures var r := Act(s, DropRelationship(cx, cy));
      && r.controller.idCounter == s.controller.idCounter + 1
      && Last(CurrentView(r.history).elements)
           == DiagramNode(s.controller.idCounter, cx, cy - 56, 50, 50, Relationship)
  {
  }

  /** In CONNECT mode with nothing pending, pressing and releasing on node
      `a` and then on another node `b` dispatches exactly one connection from
      `a` to `b` and leaves nothing pending. */
  lemma ClickPairConnects(s: Session, a: DiagramNode, b: DiagramNode)
    requires Valid(s.history)
    requires s.controller.editorMode == EditorMode.CONNECT
    requires s.controller.firstConnectedNode.None?
    requires a.id != b.id
    ensures var t := RunGestures(s, [MouseDown(a), MouseUp(a), MouseDown(b), MouseUp(b)]);
      && t.emitted == [Connect(ConnectionLine(a.id, b.id))]
      && t.session.controller == s.controller
      && t.session.history == Reducer(s.history, Connect(ConnectionLine(a.id, b.id)))
  {
    var gs := [MouseDown(a), MouseUp(a), MouseDown(b), MouseUp(b)];
    var s1 := Act(s, MouseDown(a));
    assert s1.controller.firstConnectedNode == Some(a) && s1.history == s.history;
    var s2 := Act(s1, MouseUp(a));
    assert s2 == s1 && ActEmits(s1, MouseUp(a)) == [];
    var s3 := Act(s2, MouseDown(b));
    assert ActEmits(s2, MouseDown(b)) == [Connect(ConnectionLine(a.id, b.id))];
    assert s3.controller == s.controller;
    var s4 := Act(s3, MouseUp(b));
    assert s4 == s3 && ActEmits(s3, MouseUp(b)) == [];
    assert gs[1..] == [MouseUp(a), MouseDown(b), MouseUp(b)];
    assert gs[1..][1..] == [MouseDown(b), MouseUp(b)];
    assert gs[1..][1..][1..] == [MouseUp(b)];
    assert RunGestures(s3, [MouseUp(b)]) == Trace(s4, []);
    assert RunGestures(s2, [MouseDown(b), MouseUp(b)])
      == Trace(s4, [Connect(ConnectionLine(a.id, b.id))]);
  }
}
