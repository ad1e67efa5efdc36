/**
 The diagram context: the history store plus the session state that is never
 undone (the id counter, the editor mode and the pending connection source),
 and the operations the canvas calls. Each operation is a pure step that
 returns the new controller state and the action it dispatches, if any; the
 session then runs that action through the reducer.
 */
module DiagramContext {
  import opened DiagramTypes
  import opened History

  /** The session state kept outside the history. */
  datatype Controller = Controller(
    idCounter: int,
    editorMode: EditorMode,
    firstConnectedNode: Option<DiagramNode>)

  /** The outcome of one operation: the new controller state and the action
      handed to the reducer, if any. */
  datatype Step = Step(controller: Controller, dispatched: Option<Action>)

  /** The whole editor state. */
  datatype Session = Session(history: HistoryState, controller: Controller)

  /** One empty element snapshot, one empty connection snapshot, cursor 0. */
  function InitialHistory(): (h: HistoryState)
    ensures Valid(h) && |h.elements| == 1 && |h.connections| == 1
    ensures CurrentView(h) == View([], [])
  {
    HistoryState([[]], [[]], 0)
  }

  /** Ids start at 1, the mode at SELECT, and no connection is pending. */
  function InitialController(): (c: Controller)
    ensures c.idCounter == 1 && c.editorMode == SELECT && c.firstConnectedNode.None?
  {
    Controller(1, SELECT, None)
  }

  /** The editor at start-up shows an empty diagram, with nothing to undo
      or redo, ids starting at 1, SELECT mode and no connection pending. */
  function InitialSession(): (s: Session)
    ensures Valid(s.history) && |s.history.elements| == 1 && CurrentView(s.history) == View([], [])
    ensures |s.history.connections| == 1
    ensures s.controller.idCounter == 1 && s.controller.editorMode == SELECT
    ensures s.controller.firstConnectedNode.None?
  {
    Session(InitialHistory(), InitialController())
  }

  /** Creates a node from `cmd` with the next id and advances the counter. */
  function AddNode(c: Controller, cmd: CreateNodeCommand): (r: Step)
    ensures r.dispatched.Some? && r.dispatched.value.Add?
    ensures r.dispatched.value.element.id == c.idCounter < r.controller.idCounter
    ensures Unstamp(r.dispatched.value.element) == cmd
    ensures r.controller.editorMode == c.editorMode
    ensures r.controller.firstConnectedNode == c.firstConnectedNode
  {
    Step(c.(idCounter := c.idCounter + 1), Some(Add(Stamp(c.idCounter, cmd))))
  }

  /** Forwards `e` as one DRAG action; the controller does not change. */
  function ForwardDrag(c: Controller, e: DiagramNode): (r: Step)
    ensures r.controller == c && r.dispatched == Some(Drag(e))
  {
    Step(c, Some(Drag(e)))
  }

  /** Forwards one UNDO action; the controller, and so the id counter, does
      not change. */
  function ForwardUndo(c: Controller): (r: Step)
    ensures r.controller == c && r.dispatched == Some(Undo)
  {
    Step(c, Some(Undo))
  }

  /** Forwards one REDO action; the controller does not change. */
  function ForwardRedo(c: Controller): (r: Step)
    ensures r.controller == c && r.dispatched == Some(Redo)
  {
    Step(c, Some(Redo))
  }

  /** A plain setter: the pending connection source survives a mode change. */
  function SetEditorMode(c: Controller, m: EditorMode): (r: Step)
    ensures r.controller.editorMode == m && r.dispatched.None?
    ensures r.controller.firstConnectedNode == c.firstConnectedNode
    ensures r.controller.idCounter == c.idCounter
  {
    Step(c.(editorMode := m), None)
  }

  /** Second click of a connection: with a pending source of another id it
      dispatches a connection from the source to `e` and clears the source;
      otherwise (nothing pending, or the same id) nothing happens. */
  function EndConnect(c: Controller, e: DiagramNode): (r: Step)
    ensures r.dispatched.Some? <==>
              c.firstConnectedNode.Some? && c.firstConnectedNode.value.id != e.id
    ensures r.dispatched.Some? ==>
              && r.dispatched.value == Connect(ConnectionLine(c.firstConnectedNode.value.id, e.id))
              && r.dispatched.value.connection.id1 != r.dispatched.value.connection.id2
              && r.controller == c.(firstConnectedNode := None)
    ensures r.dispatched.None? ==> r.controller == c
  {
    match c.firstConnectedNode
    case Some(first) =>
      if first.id != e.id then
        Step(c.(firstConnectedNode := None), Some(Connect(ConnectionLine(first.id, e.id))))
      else
        Step(c, None)
    case None => Step(c, None)
  }

  /** First click of a connection: with nothing pending it records `e` as
      the source and dispatches nothing; with a source pending it is the
      second click. */
  function StartConnect(c: Controller, e: DiagramNode): (r: Step)
    ensures c.firstConnectedNode.None? ==>
              r.dispatched.None? && r.controller == c.(firstConnectedNode := Some(e))
    ensures c.firstConnectedNode.Some? ==> r == EndConnect(c, e)
  {
    if c.firstConnectedNode.None? then Step(c.(firstConnectedNode := Some(e)), None)
    else EndConnect(c, e)
  }

  /** The operations the context offers its callers. */
  datatype Call =
    | AddNodeCall(cmd: CreateNodeCommand)
    | DragCall(element: DiagramNode)
    | UndoCall
    | RedoCall
    | SetModeCall(mode: EditorMode)
    | StartConnectCall(element: DiagramNode)
    | EndConnectCall(element: DiagramNode)

  function Handle(c: Controller, call: Call): (r: Step)
    ensures r.controller.idCounter == c.idCounter + (if call.AddNodeCall? then 1 else 0)
    ensures !call.SetModeCall? ==> r.controller.editorMode == c.editorMode
    ensures r.dispatched.Some? && r.dispatched.value.Add? ==>
              call.AddNodeCall? && r.dispatched.value.element.id == c.idCounter
    ensures r.dispatched.Some? && r.dispatched.value.Connect? ==>
              r.dispatched.value.connection.id1 != r.dispatched.value.connection.id2
    ensures r.dispatched != Some(Save)
  {
    match call
    case AddNodeCall(cmd) => AddNode(c, cmd)
    case DragCall(e) => ForwardDrag(c, e)
    case UndoCall => ForwardUndo(c)
    case RedoCall => ForwardRedo(c)
    case SetModeCall(m) => SetEditorMode(c, m)
    case StartConnectCall(e) => StartConnect(c, e)
    case EndConnectCall(e) => EndConnect(c, e)
  }

  /** Runs the dispatched action, if any, through the reducer. */
  function Dispatch(h: HistoryState, d: Option<Action>): (r: HistoryState)
    requires Valid(h)
    ensures Valid(r)
    ensures d.None? ==> r == h
  {
    match d
    case None => h
    case Some(a) => Reducer(h, a)
  }

  /** One operation on the whole session. */
  function Perform(s: Session, call: Call): (r: Session)
    requires Valid(s.history)
    ensures Valid(r.history)
  {
    var step := Handle(s.controller, call);
    Session(Dispatch(s.history, step.dispatched), step.controller)
  }

  /** A run of operations: the final session and the actions dispatched. */
  datatype Trace = Trace(session: Session, emitted: seq<Action>)

  function Emitted(d: Option<Action>): seq<Action> {
    match d
    case None => []
    case Some(a) => [a]
  }

  function Run(s: Session, calls: seq<Call>): (t: Trace)
    requires Valid(s.history)
    ensures Valid(t.session.history)
    ensures |t.emitted| <= |calls|
    decreases |calls|
  {
    if |calls| == 0 then Trace(s, [])
    else
      var rest := Run(Perform(s, calls[0]), calls[1..]);
      Trace(rest.session, Emitted(Handle(s.controller, calls[0]).dispatched) + rest.emitted)
  }

  /** The ids of the nodes created by a run of actions, in order. */
  function AddedIds(actions: seq<Action>): (ids: seq<int>)
    ensures |ids| <= |actions|
  {
    if |actions| == 0 then []
    else (if actions[0].Add? then [actions[0].element.id] else []) + AddedIds(actions[1..])
  }

  function CountAddCalls(calls: seq<Call>): (n: nat)
    ensures n <= |calls|
  {
    if |calls| == 0 then 0
    else (if calls[0].AddNodeCall? then 1 else 0) + CountAddCalls(calls[1..])
  }

  predicate StrictlyIncreasing(ids: seq<int>) {
    forall i, j :: 0 <= i < j < |ids| ==> ids[i] < ids[j]
  }

  /** Ids are handed out by the counter alone: over any run of operations
      (undo and redo included) the created nodes get strictly increasing
      ids, all at least the starting counter and below the final one, and
      the counter advances once per created node. */
  lemma {:induction false} IssuedIdsIncrease(s: Session, calls: seq<Call>)
    requires Valid(s.history)
    ensures var t := Run(s, calls);
      && StrictlyIncreasing(AddedIds(t.emitted))
      && (forall k :: 0 <= k < |AddedIds(t.emitted)| ==>
            s.controller.idCounter <= AddedIds(t.emitted)[k] < t.session.controller.idCounter)
      && t.session.controller.idCounter == s.controller.idCounter + CountAddCalls(calls)
    decreases |calls|
  {
    if |calls| > 0 {
      var step := Handle(s.controller, calls[0]);
      var next := Perform(s, calls[0]);
      var rest := Run(next, calls[1..]);
      var t := Run(s, calls);
      assert t == Trace(rest.session, Emitted(step.dispatched) + rest.emitted);
      assert CountAddCalls(calls) == (if calls[0].AddNodeCall? then 1 else 0) + CountAddCalls(calls[1..]);
      IssuedIdsIncrease(next, calls[1..]);
      AddedIdsAppend(Emitted(step.dispatched), rest.emitted);
      var head := AddedIds(Emitted(step.dispatched));
      var tail := AddedIds(rest.emitted);
      assert AddedIds(t.emitted) == head + tail;
      HandleIssuesCounter(s.controller, calls[0]);
      ConcatIncreasing(head, tail, next.controller.idCounter);
    }
  }

  /** One call creates at most one node, and with the counter's id. */
  lemma HandleIssuesCounter(c: Controller, call: Call)
    ensures var step := Handle(c, call);
      var head := AddedIds(Emitted(step.dispatched));
      && |head| <= 1
      && forall k :: 0 <= k < |head| ==> c.idCounter <= head[k] < step.controller.idCounter
  {
    var step := Handle(c, call);
    if step.dispatched.Some? {
      assert Emitted(step.dispatched)[1..] == [];
    }
  }

  /** The tag SAVE never reaches the reducer: no run of operations
      dispatches it. */
  lemma {:induction false} NoCallDispatchesSave(s: Session, calls: seq<Call>)
    requires Valid(s.history)
    ensures forall a :: a in Run(s, calls).emitted ==> TypeOf(a) != SAVE
    decreases |calls|
  {
    if |calls| > 0 {
      NoCallDispatchesSave(Perform(s, calls[0]), calls[1..]);
    }
  }

  lemma ConcatIncreasing(a: seq<int>, b: seq<int>, pivot: int)
    requires StrictlyIncreasing(a) && StrictlyIncreasing(b)
    requires forall k :: 0 <= k < |a| ==> a[k] < pivot
    requires forall k :: 0 <= k < |b| ==> pivot <= b[k]
    ensures StrictlyIncreasing(a + b)
  {
    var ab := a + b;
    forall i, j | 0 <= i < j < |ab| ensures ab[i] < ab[j] {
      if j < |a| {
        assert ab[i] == a[i] && ab[j] == a[j];
      } else if i < |a| {
        assert ab[i] == a[i] && ab[j] == b[j - |a|];
      } else {
        assert ab[i] == b[i - |a|] && ab[j] == b[j - |a|];
      }
    }
  }

  lemma {:induction false} AddedIdsAppend(a: seq<Action>, b: seq<Action>)
    ensures AddedIds(a + b) == AddedIds(a) + AddedIds(b)
    decreases |a|
  {
    if |a| > 0 {
      assert (a + b)[1..] == a[1..] + b;
      AddedIdsAppend(a[1..], b);
    } else {
      assert a + b == b;
    }
  }

  /** Pairing by two calls: a source and then another node dispatch exactly
      one connection between them and clear the source; clicking the source
      again instead changes nothing. */
  lemma StartConnectPairing(c: Controller, a: DiagramNode, b: DiagramNode)
    requires c.firstConnectedNode.None?
    ensures var s1 := StartConnect(c, a);
      && s1.dispatched.None?
      && StartConnect(s1.controller, a) == Step(s1.controller, None)
      && (a.id != b.id ==>
            StartConnect(s1.controller, b)
              == Step(c, Some(Connect(ConnectionLine(a.id, b.id)))))
  {
  }

  /** A pending source survives switching to SELECT and back, and the next
      click on another node in CONNECT mode still completes the connection. */
  lemma PendingSurvivesModeSwitch(c: Controller, a: DiagramNode, b: DiagramNode)
    requires c.firstConnectedNode == Some(a) && a.id != b.id
    ensures var c1 := SetEditorMode(SetEditorMode(c, SELECT).controller, EditorMode.CONNECT).controller;
      && c1.firstConnectedNode == Some(a)
      && EndConnect(c1, b).dispatched == Some(Connect(ConnectionLine(a.id, b.id)))
  {
  }

  /** Every id in `snap` is below `bound`. */
  predicate IdsBelow(snap: seq<DiagramNode>, bound: int) {
    forall x :: x in snap ==> x.id < bound
  }

  /** No connection of `conns` joins a node to itself. */
  predicate NoSelfLoops(conns: seq<ConnectionLine>) {
    forall c :: c in conns ==> c.id1 != c.id2
  }

  predicate GoodElementSnapshots(es: seq<seq<DiagramNode>>, bound: int) {
    forall k :: 0 <= k < |es| ==> UniqueIds(es[k]) && IdsBelow(es[k], bound)
  }

  predicate GoodConnectionSnapshots(cs: seq<seq<ConnectionLine>>) {
    forall k :: 0 <= k < |cs| ==> NoSelfLoops(cs[k])
  }

  /** What every session reached through the canvas keeps: a valid history,
      no snapshot with a repeated id or an id the counter has not issued,
      and no self-connection anywhere in the history. */
  predicate SessionInv(s: Session) {
    && Valid(s.history)
    && GoodElementSnapshots(s.history.elements, s.controller.idCounter)
    && GoodConnectionSnapshots(s.history.connections)
  }

  /** The editor starts inside the session invariant. */
  lemma InitialSessionInv()
    ensures SessionInv(InitialSession())
  {
  }

  /** A call the canvas can make: a drag always carries the id of a node on
      display. */
  predicate Allowed(s: Session, call: Call)
    requires Valid(s.history)
  {
    call.DragCall? ==>
      exists x :: x in CurrentView(s.history).elements && x.id == call.element.id
  }

  /** Every allowed call keeps the session invariant. */
  lemma PerformKeepsSessionInv(s: Session, call: Call)
    requires SessionInv(s) && Allowed(s, call)
    ensures SessionInv(Perform(s, call))
  {
    var h := s.history;
    var bound := s.controller.idCounter;
    var step := Handle(s.controller, call);
    var r := Perform(s, call);
    var cur := h.elements[h.index];
    assert UniqueIds(cur) && IdsBelow(cur, bound);
    match step.dispatched
    case None =>
    case Some(a) =>
      match a
      case Add(e) =>
        assert e.id == bound;
        UniqueSnoc(cur, e);
        var kept := h.elements[..h.index + 1];
        assert r.history.elements == kept + [cur + [e]];
        forall k | 0 <= k < |r.history.elements|
          ensures UniqueIds(r.history.elements[k]) && IdsBelow(r.history.elements[k], bound + 1)
        {
          if k <= h.index {
            assert r.history.elements[k] == h.elements[k];
          }
        }
        GoodConnectionsSnoc(h.connections, h.connections[h.index]);
      case Drag(e) =>
        var filtered := RemoveId(cur, e.id);
        RemoveIdKeepsUnique(cur, e.id);
        UniqueSnoc(filtered, e);
        assert r.history.elements == h.elements + [filtered + [e]];
        GoodElementsSnoc(h.elements, filtered + [e], bound);
        GoodConnectionsSnoc(h.connections, h.connections[h.index]);
      case Connect(c) =>
        assert r.history.elements == h.elements + [cur];
        GoodElementsSnoc(h.elements, cur, bound);
        GoodConnectionsSnoc(h.connections, h.connections[h.index] + [c]);
      case Undo =>
      case Redo =>
      case Save =>
  }

  lemma GoodElementsSnoc(es: seq<seq<DiagramNode>>, snap: seq<DiagramNode>, bound: int)
    requires GoodElementSnapshots(es, bound)
    requires UniqueIds(snap) && IdsBelow(snap, bound)
    ensures GoodElementSnapshots(es + [snap], bound)
  {
    var es' := es + [snap];
    forall k | 0 <= k < |es'| ensures UniqueIds(es'[k]) && IdsBelow(es'[k], bound) {
      if k < |es| {
        assert es'[k] == es[k];
      }
    }
  }

  lemma GoodConnectionsSnoc(cs: seq<seq<ConnectionLine>>, snap: seq<ConnectionLine>)
    requires GoodConnectionSnapshots(cs)
    requires NoSelfLoops(snap)
    ensures GoodConnectionSnapshots(cs + [snap])
  {
    var cs' := cs + [snap];
    forall k | 0 <= k < |cs'| ensures NoSelfLoops(cs'[k]) {
      if k < |cs| {
        assert cs'[k] == cs[k];
      }
    }
  }
}
