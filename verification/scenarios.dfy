/**
 Whole-session runs of the diagram context from its initial state, worked
 out on concrete commands.
 */
module Scenarios {
  import opened DiagramTypes
  import opened History
  import opened DiagramContext
  import opened LinearHistory

  function Cmd1(): CreateNodeCommand { CreateNodeCommand(0, 0, 50, 50, Entity) }
  function Cmd2(): CreateNodeCommand { CreateNodeCommand(100, 0, 50, 50, Entity) }

  /** Two nodes added and then one undo show the first node alone; a redo
      shows both again, with the ids 1 and 2 they were given. */
  lemma AddTwiceUndoRedo()
    ensures var s2 := Perform(Perform(InitialSession(), AddNodeCall(Cmd1())), AddNodeCall(Cmd2()));
      var s3 := Perform(s2, UndoCall);
      && CurrentView(s3.history).elements == [Stamp(1, Cmd1())]
      && CurrentView(Perform(s3, RedoCall).history).elements == [Stamp(1, Cmd1()), Stamp(2, Cmd2())]
      && Perform(s3, RedoCall).controller.idCounter == 3
  {
    var n1, n2 := Stamp(1, Cmd1()), Stamp(2, Cmd2());
    assert [] + [n1] == [n1] && [n1] + [n2] == [n1, n2];
    assert InitialSession() == Session(HistoryState([[]], [[]], 0), Controller(1, SELECT, None));
    var s1 := Perform(InitialSession(), AddNodeCall(Cmd1()));
    assert s1.history == HistoryState([[], [n1]], [[], []], 1);
    var s2 := Perform(s1, AddNodeCall(Cmd2()));
    assert s2.history == HistoryState([[], [n1], [n1, n2]], [[], [], []], 2);
  }

  /** Two nodes added, the first dragged, then two undos: the view holds the
      first node at its old place (three snapshots were written, so two undos
      reach the one-node snapshot); a third undo empties the view and a
      fourth changes nothing. */
  lemma AddTwiceDragUndo()
    ensures var n1 := Stamp(1, Cmd1());
      var s3 := Perform(Perform(Perform(InitialSession(), AddNodeCall(Cmd1())), AddNodeCall(Cmd2())),
                        DragCall(n1.(x := 30)));
      var u2 := Perform(Perform(s3, UndoCall), UndoCall);
      var u3 := Perform(u2, UndoCall);
      && CurrentView(u2.history).elements == [n1]
      && CurrentView(u3.history).elements == []
      && Perform(u3, UndoCall) == u3
  {
    var n1, n2 := Stamp(1, Cmd1()), Stamp(2, Cmd2());
    assert [] + [n1] == [n1] && [n1] + [n2] == [n1, n2];
    assert InitialSession() == Session(HistoryState([[]], [[]], 0), Controller(1, SELECT, None));
    var s1 := Perform(InitialSession(), AddNodeCall(Cmd1()));
    assert s1.history == HistoryState([[], [n1]], [[], []], 1);
    var s2 := Perform(s1, AddNodeCall(Cmd2()));
    assert s2.history == HistoryState([[], [n1], [n1, n2]], [[], [], []], 2);
    var s3 := Perform(s2, DragCall(n1.(x := 30)));
    assert s3.history.elements[..3] == s2.history.elements && s3.history.index == 3;
    assert s3.history.elements[1] == s3.history.elements[..3][1] == [n1];
  }

  /** A pending connection source outlives an undo that takes it off
      display. Two nodes added, CONNECT mode chosen, node 2 pressed, one
      undo (only node 1 is shown), node 1 pressed: the context dispatches a
      connection from the hidden node 2 to node 1, a write no displayed pair
      of nodes justifies; after a redo the editor shows node 1 alone with a
      line to node 2. */
  lemma StalePendingSourceAfterUndo()
    ensures var n1, n2 := Stamp(1, Cmd1()), Stamp(2, Cmd2());
      var s2 := Perform(Perform(InitialSession(), AddNodeCall(Cmd1())), AddNodeCall(Cmd2()));
      var u := Perform(Perform(Perform(s2, SetModeCall(EditorMode.CONNECT)), StartConnectCall(n2)), UndoCall);
      var line := ConnectionLine(2, 1);
      var r := Perform(Perform(u, StartConnectCall(n1)), RedoCall);
      && CurrentView(u.history).elements == [n1]
      && Handle(u.controller, StartConnectCall(n1)).dispatched == Some(Connect(line))
      && !Legal(u.history, Connect(line))
      && CurrentView(r.history) == View([n1], [line])
      && !Closed(CurrentView(r.history))
  {
    var n1, n2 := Stamp(1, Cmd1()), Stamp(2, Cmd2());
    var line := ConnectionLine(2, 1);
    assert [] + [n1] == [n1] && [n1] + [n2] == [n1, n2] && [] + [line] == [line];
    assert InitialSession() == Session(HistoryState([[]], [[]], 0), Controller(1, SELECT, None));
    var s1 := Perform(InitialSession(), AddNodeCall(Cmd1()));
    assert s1.history == HistoryState([[], [n1]], [[], []], 1);
    var s2 := Perform(s1, AddNodeCall(Cmd2()));
    assert s2.history == HistoryState([[], [n1], [n1, n2]], [[], [], []], 2);
    var s4 := Perform(Perform(s2, SetModeCall(EditorMode.CONNECT)), StartConnectCall(n2));
    assert s4.history == s2.history && s4.controller.firstConnectedNode == Some(n2);
    var u := Perform(s4, UndoCall);
    assert u.history == HistoryState([[], [n1], [n1, n2]], [[], [], []], 1);
    var w := Perform(u, StartConnectCall(n1));
    assert w.history == HistoryState([[], [n1], [n1, n2], [n1]], [[], [], [], [line]], 2);
    assert !HasId([n1], 2);
  }
}
