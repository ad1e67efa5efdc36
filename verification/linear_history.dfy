/**
 The history the reducer evidently means to keep: element and connection
 snapshots stay paired, and every write cuts both arrays back to the cursor
 before appending, so the cursor always lands on the snapshot just written.
 */
module LinearHistory {
  import opened DiagramTypes
  import opened History

  /** Both arrays have one snapshot per step and the cursor is inside. */
  predicate Paired(s: HistoryState) {
    0 <= s.index < |s.elements| && |s.elements| == |s.connections|
  }

  /** The snapshot pair a write derives from the current one. */
  function Derived(s: HistoryState, a: Action): (v: View)
    requires Valid(s) && IsWrite(a)
    ensures a.Add? ==> v == View(s.elements[s.index] + [a.element], s.connections[s.index])
    ensures a.Connect? ==> v == View(s.elements[s.index], s.connections[s.index] + [a.connection])
    ensures a.Drag? ==> v.connections == s.connections[s.index] && |v.elements| > 0 && Last(v.elements) == a.element
  {
    var cur := CurrentView(s);
    match a
    case Add(e) => View(cur.elements + [e], cur.connections)
    case Drag(e) => View(RemoveId(cur.elements, e.id) + [e], cur.connections)
    case Connect(c) => View(cur.elements, cur.connections + [c])
  }

  /** Drops every snapshot after the cursor from both arrays and appends `v`
      as the new current one. */
  function Commit(s: HistoryState, v: View): (r: HistoryState)
    requires Paired(s)
    ensures Paired(r) && r.index == s.index + 1 && r.index == |r.elements| - 1
    ensures r.elements[..s.index + 1] == s.elements[..s.index + 1]
    ensures r.connections[..s.index + 1] == s.connections[..s.index + 1]
    ensures CurrentView(r) == v
  {
    HistoryState(
      s.elements[..s.index + 1] + [v.elements],
      s.connections[..s.index + 1] + [v.connections],
      s.index + 1)
  }

  /** The reducer with paired truncation on every write. */
  function FixedReducer(s: HistoryState, a: Action): (r: HistoryState)
    requires Paired(s)
    ensures Paired(r)
    ensures !IsWrite(a) ==> r == Reducer(s, a)
  {
    if IsWrite(a) then Commit(s, Derived(s, a)) else Reducer(s, a)
  }

  /** After a write the editor shows exactly the snapshot the write derived,
      and nothing is left to redo. */
  lemma WriteShowsDerived(s: HistoryState, a: Action)
    requires Paired(s) && IsWrite(a)
    ensures CurrentView(FixedReducer(s, a)) == Derived(s, a)
    ensures FixedReducer(FixedReducer(s, a), Redo) == FixedReducer(s, a)
  {
  }

  /** Undoing a write shows again what was shown before it. */
  lemma FixedUndoAfterWrite(s: HistoryState, a: Action)
    requires Paired(s) && IsWrite(a)
    ensures CurrentView(FixedReducer(FixedReducer(s, a), Undo)) == CurrentView(s)
  {
    var r := FixedReducer(s, a);
    assert r.elements[..s.index + 1][s.index] == s.elements[..s.index + 1][s.index];
    assert r.connections[..s.index + 1][s.index] == s.connections[..s.index + 1][s.index];
  }

  /** Some node of `snap` has id `id`. */
  predicate HasId(snap: seq<DiagramNode>, id: int) {
    exists x :: x in snap && x.id == id
  }

  /** Every connection of the view joins two nodes of the view: what the
      canvas needs to draw its lines. */
  predicate Closed(v: View) {
    forall c :: c in v.connections ==> HasId(v.elements, c.id1) && HasId(v.elements, c.id2)
  }

  predicate AllClosed(s: HistoryState) {
    forall k :: 0 <= k < |s.elements| && k < |s.connections| ==>
      Closed(View(s.elements[k], s.connections[k]))
  }

  /** A write whose connection, if any, joins two nodes on display. The
      context does not guarantee this: a pending connection source survives
      undo and redo, so the second node pressed can be joined to a node no
      longer shown (Scenarios.StalePendingSourceAfterUndo). */
  predicate Legal(s: HistoryState, a: Action)
    requires Valid(s)
  {
    a.Connect? ==>
      HasId(CurrentView(s).elements, a.connection.id1) &&
      HasId(CurrentView(s).elements, a.connection.id2)
  }

  /** Every id present before a write is present after it. */
  lemma DerivedKeepsIds(s: HistoryState, a: Action, id: int)
    requires Valid(s) && IsWrite(a)
    requires HasId(CurrentView(s).elements, id)
    ensures HasId(Derived(s, a).elements, id)
  {
    var cur := CurrentView(s).elements;
    var x :| x in cur && x.id == id;
    var v := Derived(s, a);
    match a
    case Add(e) =>
      assert x in v.elements;
    case Connect(c) =>
    case Drag(e) =>
      if id == e.id {
        assert Last(v.elements) in v.elements;
      } else {
        assert x in RemoveId(cur, e.id);
        assert x in v.elements;
      }
  }

  /** With paired truncation, legal writes keep every snapshot closed. */
  lemma FixedKeepsClosed(s: HistoryState, a: Action)
    requires Paired(s) && AllClosed(s) && Legal(s, a)
    ensures AllClosed(FixedReducer(s, a))
  {
    var r := FixedReducer(s, a);
    if IsWrite(a) {
      var v := Derived(s, a);
      var cur := CurrentView(s);
      assert Closed(cur);
      forall c | c in v.connections
        ensures HasId(v.elements, c.id1) && HasId(v.elements, c.id2)
      {
        if !(a.Connect? && c == a.connection) {
          assert c in cur.connections;
        }
        DerivedKeepsIds(s, a, c.id1);
        DerivedKeepsIds(s, a, c.id2);
      }
      forall k | 0 <= k < |r.elements| && k < |r.connections|
        ensures Closed(View(r.elements[k], r.connections[k]))
      {
        if k <= s.index {
          assert r.elements[k] == r.elements[..s.index + 1][k] == s.elements[k];
          assert r.connections[k] == r.connections[..s.index + 1][k] == s.connections[k];
        }
      }
    }
  }
}
