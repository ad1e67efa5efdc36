/**
 The value types shared by the history reducer, the diagram context and the
 canvas: diagram nodes, connection lines, node-creation commands, the action
 tags and the editor modes.
 */
module DiagramTypes {

  /** A value that may be absent (the program's `T | null`). */
  datatype Option<T> = None | Some(value: T)

  /** The kind of a diagram node. `ConnectionType` is declared by the program
      but no operation ever produces it. */
  datatype ElementType = Entity | Relationship | ConnectionType

  /** A node of the diagram. Positions and sizes are opaque integers: the
      core does no arithmetic on them except the toolbar's vertical offset. */
  datatype DiagramNode = DiagramNode(
    id: int,
    x: int,
    y: int,
    width: int,
    height: int,
    elementType: ElementType)

  /** Every diagram element is a node. */
  type DiagramElement = DiagramNode

  /** An edge between the nodes with ids `id1` and `id2`. */
  datatype ConnectionLine = ConnectionLine(id1: int, id2: int)

  /** What the toolbar asks to create: a node without an id. */
  datatype CreateNodeCommand = CreateNodeCommand(
    x: int,
    y: int,
    width: int,
    height: int,
    elementType: ElementType)

  /** The action tags. `SAVE` is declared but carried by no action the
      reducer handles. */
  datatype HistoryActionType = ADD | SAVE | UNDO | REDO | DRAG | CONNECT

  /** The two editor modes. */
  datatype EditorMode = SELECT | CONNECT

  /** The node a creation command describes once it is given `id`. */
  function Stamp(id: int, cmd: CreateNodeCommand): (e: DiagramNode)
    ensures e.id == id
    ensures e.x == cmd.x && e.y == cmd.y && e.width == cmd.width && e.height == cmd.height
    ensures e.elementType == cmd.elementType
  {
    DiagramNode(id, cmd.x, cmd.y, cmd.width, cmd.height, cmd.elementType)
  }

  /** The creation command that describes `e` apart from its id. */
  function Unstamp(e: DiagramNode): (cmd: CreateNodeCommand)
    ensures cmd.x == e.x && cmd.y == e.y && cmd.width == e.width && cmd.height == e.height
    ensures cmd.elementType == e.elementType
  {
    CreateNodeCommand(e.x, e.y, e.width, e.height, e.elementType)
  }

  /** A command is exactly a node without its id: stamping and unstamping
      are inverse to each other. */
  lemma StampRoundTrip(id: int, cmd: CreateNodeCommand, e: DiagramNode)
    ensures Unstamp(Stamp(id, cmd)) == cmd
    ensures Stamp(e.id, Unstamp(e)) == e
  {
  }
}
