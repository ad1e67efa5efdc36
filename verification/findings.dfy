/**
 Two places where the reducer as written does not keep the history it
 evidently means to keep, each shown on concrete inputs and set against the
 paired history of module LinearHistory.
 */
module Findings {
  import opened DiagramTypes
  import opened History
  import opened LinearHistory
  import opened DiagramContext

  /** As written, a DRAG or CONNECT made after an UNDO appends its snapshot at
      the far end but moves the cursor only one step, so the editor shows the
      snapshot that used to follow the current one, not the one written. */
  lemma WriteAfterUndoShowsNextSnapshot(s: HistoryState, a: Action)
    requires Valid(s) && s.index < |s.elements| - 1
    requires a.Drag? || a.Connect?
    ensures CurrentView(Reducer(s, a)) == View(s.elements[s.index + 1], s.connections[s.index + 1])
  {
    var r := Reducer(s, a);
    match a
    case Drag(e) =>
      assert r.elements[..|s.elements|][s.index + 1] == s.elements[s.index + 1];
      assert r.connections[..|s.connections|][s.index + 1] == s.connections[s.index + 1];
    case Connect(c) =>
      assert r.connections[..|s.connections|][s.index + 1] == s.connections[s.index + 1];
  }

  /** Add node 1, add node 2, undo, drag node 1: the editor shows both
      nodes at their old places, while the paired history shows node 1
      alone at its new place. */
  lemma DragAfterUndoShowsStaleSnapshot()
    ensures var a := DiagramNode(1, 0, 0, 50, 50, Entity);
      var b := DiagramNode(2, 100, 0, 50, 50, Entity);
      var moved := a.(x := 30);
      var h := Reducer(Reducer(Reducer(InitialHistory(), Add(a)), Add(b)), Undo);
      && CurrentView(Reducer(h, Drag(moved))).elements == [a, b]
      && Derived(h, Drag(moved)).elements == [moved]
      && CurrentView(FixedReducer(h, Drag(moved))).elements == [moved]
  {
    var a := DiagramNode(1, 0, 0, 50, 50, Entity);
    var b := DiagramNode(2, 100, 0, 50, 50, Entity);
    var moved := a.(x := 30);
    var h1 := Reducer(InitialHistory(), Add(a));
    assert [] + [a] == [a] && [a] + [b] == [a, b];
    assert h1 == HistoryState([[], [a]], [[], []], 1);
    var h2 := Reducer(h1, Add(b));
    assert h2 == HistoryState([[], [a], [a, b]], [[], [], []], 2);
    var h := Reducer(h2, Undo);
    assert h.index == 1 && Paired(h);
    WriteAfterUndoShowsNextSnapshot(h, Drag(moved));
    assert RemoveId([a], 1) == [];
    WriteShowsDerived(h, Drag(moved));
  }

  /** As written, an ADD made after an UNDO keeps the old connection array,
      so the connection snapshots fall out of step with the element ones.
      Add nodes 1 and 2, connect them, undo twice, add nodes 3 and 4: the
      editor now shows nodes 1, 3 and 4 together with a line to node 2, which
      is not shown (the canvas then looks up a node that is not there). */
  lemma AddAfterUndoShowsDanglingConnection()
    ensures var h := Reducer(Reducer(Reducer(Reducer(DanglingPrefix(), Undo), Undo),
                                     Add(Node3())), Add(Node4()));
      && CurrentView(h) == View([Node1(), Node3(), Node4()], [ConnectionLine(1, 2)])
      && !Closed(CurrentView(h))
  {
    var n1, n2, n3, n4 := Node1(), Node2(), Node3(), Node4();
    var line := ConnectionLine(1, 2);
    var h3 := DanglingPrefix();
    assert h3 == HistoryState([[], [n1], [n1, n2], [n1, n2]], [[], [], [], [line]], 3);
    var h5 := Reducer(Reducer(h3, Undo), Undo);
    assert h5 == h3.(index := 1);
    assert [n1] + [n3] == [n1, n3] && [n1, n3] + [n4] == [n1, n3, n4];
    var h6 := Reducer(h5, Add(n3));
    assert h6 == HistoryState([[], [n1], [n1, n3]], [[], [], [], [line]], 2);
    var h7 := Reducer(h6, Add(n4));
    assert h7.elements[3] == [n1, n3, n4] && h7.connections[3] == [line] && h7.index == 3;
    assert !HasId([n1, n3, n4], 2);
  }

  /** The paired history, fed the same actions, shows the three nodes and
      no line. */
  lemma FixedAddAfterUndoShowsNoLine()
    ensures var f := FixedReducer(FixedReducer(FixedReducer(FixedReducer(
                       FixedDanglingPrefix(), Undo), Undo), Add(Node3())), Add(Node4()));
      && CurrentView(f) == View([Node1(), Node3(), Node4()], [])
      && Closed(CurrentView(f))
  {
    var n1, n2, n3, n4 := Node1(), Node2(), Node3(), Node4();
    var line := ConnectionLine(1, 2);
    var f3 := FixedDanglingPrefix();
    var f5 := FixedReducer(FixedReducer(f3, Undo), Undo);
    assert f5 == f3.(index := 1);
    assert CurrentView(f5) == View([n1], []);
    assert [n1] + [n3] == [n1, n3] && [n1, n3] + [n4] == [n1, n3, n4];
    var f6 := FixedReducer(f5, Add(n3));
    assert Derived(f5, Add(n3)) == View([n1, n3], []);
    WriteShowsDerived(f5, Add(n3));
    assert CurrentView(f6) == View([n1, n3], []);
    var f7 := FixedReducer(f6, Add(n4));
    assert Derived(f6, Add(n4)) == View([n1, n3, n4], []);
    WriteShowsDerived(f6, Add(n4));
  }

  function Node1(): DiagramNode { DiagramNode(1, 0, 0, 50, 50, Entity) }
  function Node2(): DiagramNode { DiagramNode(2, 100, 0, 50, 50, Entity) }
  function Node3(): DiagramNode { DiagramNode(3, 0, 100, 50, 50, Relationship) }
  function Node4(): DiagramNode { DiagramNode(4, 100, 100, 50, 50, Entity) }

  /** Nodes 1 and 2 added and then connected, as written. */
  function DanglingPrefix(): (h: HistoryState)
    ensures h == HistoryState([[], [Node1()], [Node1(), Node2()], [Node1(), Node2()]],
                              [[], [], [], [ConnectionLine(1, 2)]], 3)
  {
    var n1, n2 := Node1(), Node2();
    assert [] + [n1] == [n1] && [n1] + [n2] == [n1, n2] && [] + [ConnectionLine(1, 2)] == [ConnectionLine(1, 2)];
    Reducer(Reducer(Reducer(InitialHistory(), Add(n1)), Add(n2)), Connect(ConnectionLine(1, 2)))
  }

  /** The same three actions on the paired history. */
  function FixedDanglingPrefix(): (h: HistoryState)
    ensures h == HistoryState([[], [Node1()], [Node1(), Node2()], [Node1(), Node2()]],
                              [[], [], [], [ConnectionLine(1, 2)]], 3)
  {
    var n1, n2 := Node1(), Node2();
    assert [] + [n1] == [n1] && [n1] + [n2] == [n1, n2] && [] + [ConnectionLine(1, 2)] == [ConnectionLine(1, 2)];
    var f1 := FixedReducer(InitialHistory(), Add(n1));
    assert f1 == HistoryState([[], [n1]], [[], []], 1);
    var f2 := FixedReducer(f1, Add(n2));
    assert f2 == HistoryState([[], [n1], [n1, n2]], [[], [], []], 2);
    FixedReducer(f2, Connect(ConnectionLine(1, 2)))
  }
}
